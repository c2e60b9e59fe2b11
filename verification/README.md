# Verified models of libxenon's stateful cores

A Dafny model of the parts of libxenon (the bare-metal Xbox 360 library) where a small
mistake spoils a whole data structure, with proofs of what those parts promise. The
project consists of proofs only; nothing was executed. `dafny verify dfyconfig.toml`
checks all files.

| component | modules |
|---|---|
| 32-bit words and copying | `Memory` |
| flattened device trees (`libfdt`) | `FdtBytes`, `FdtTree`, `FdtFormat`, `FdtBlob`, `FdtUnique`, `FdtScan`, `FdtWalk`, `FdtLookup`, `FdtSplice`, `FdtEdit`, `FdtLaws`, `FdtAddNode`, `FdtReserve`, `FdtNop`, `FdtPack`, `FdtOpen`, `FdtDraft`, `FdtWriter`, `FdtFinish`, `FdtRoundTrip`, `FdtAncestor`, `FdtPath`, `FdtPathLookup`, `FdtSample` |
| OHCI transfer descriptors (`usb/ohci.c`) | `PlaceLists`, `OhciPlaces`, `OhciState`, `OhciSteps`, `OhciLog`, `OhciHw`, `OhciActs`, `OhciRounds`, `Ohci`, `OhciLaws` |
| thread scheduler (`threads/c_threads.c`) | `SchedPolicy`, `SchedState`, `SchedSteps`, `Sched`, `SchedRuns` |
| recursive malloc lock (`newlib/xenon_syscalls.c`) | `MallocLock` |
| kernel heap (`nocfe/lib_malloc.c`) | `Heap`, `HeapMem`, `HeapRuns` |
| DES and triple DES (`crypt/des.c`) | `DesKeys`, `Des`, `DesTables`, `DesBytes`, `DesCode`, `DesRoundTrip` |
| SHA-1 and HMAC (`crypt/sha1.c`, `crypt/hmac_sha1.c`) | `BigEndian`, `Sha`, `ShaCode`, `ShaSchedule`, `ShaVector`, `ShaContext`, `Hmac` |
| ISO 9660 reads (`iso9660/iso9660.c`) | `Iso9660` |
| framebuffer console (`console/console.c`) | `Tiles`, `Console` |

How each part is modelled:

- **Device trees.** A blob is an array of bytes with its header in the first 40 bytes.
  `Holds(bytes, view)` says that the blob's blocks encode a reserve map, a token list and
  a string table. `DecodesTo(view, tree)` says that the tokens, with NOPs dropped and
  names resolved, are the preorder walk of `tree`. A node is named by its path of child
  positions; the ghost argument `k` of a method is the token that its offset points at.
  Every method works on the bytes as the C code does; its contract speaks of the tree.
  A writer call whose next store would leave the buffer ends with `OUTSIDE`, which is no
  return value of the source.
- **OHCI.** One array of transfer descriptors, with ghost lists that say where each
  descriptor is: free, queued at an endpoint, an endpoint's dummy, on the controller's
  done list, written back, or in the hands of a running routine. The controller follows
  sections 4.3.1.3 and 4.4 of the OpenHCI specification, release 1.0a. Controller steps
  may come between any two steps of a driver routine: before, between and after the
  chunks of a submission, around every descriptor of a done list or of an endpoint being
  deleted, and before an endpoint is closed. They and what completion callbacks call
  are arguments, so each contract covers every such interleaving, including callbacks
  that submit, delete endpoints or process interrupts again. A call ends `Fine`, or
  `Lost` once a head pointer has been stored that the controller moved on since it was
  loaded, or `Wild` once a done head with bit 0 set was taken for an address. A history
  records submissions, queued descriptors and settlements; every call is tied to a
  function on states (`OhciActs`), and the requests always are what the history makes of
  them.
- **Scheduler.** One array of threads and one of processors with their link fields;
  ghost lists give the ring of each processor, the stack of threads migrating to it, and
  the unused threads. The priority policy is separate, on the ready list alone. Whole
  runs are sequences of creations, migrations, changes and decisions on any processors,
  with the state after each call.
- **Malloc lock.** A state machine with one step for each memory access, any number of
  threads, any interleaving.
- **Heap.** An array of 32-bit words that holds node headers and payloads, and the list
  of nodes it represents. Sizes and addresses are computed modulo 2^32 as in the source;
  stores to addresses outside the pool are made but do not show. Whole runs are
  sequences of requests, frees and stores by one caller.
- **DES, SHA-1, HMAC.** 32-bit vectors as in the source. S-boxes and subkeys are
  arguments.
- **ISO 9660.** The disc is a function from byte offset to byte. The drive either fails,
  leaving anything in the buffer, or returns the disc's sectors.
- **Console.** The tiled framebuffer as an array of words, specified on a plain grid of
  pixels.

## Model

| member | source | states |
|---|---|---|
| `FdtTree.FlatUnique` | libxenon/drivers/libfdt/fdt.c:93-141 | An event stream starts with at most one complete tree, so the walk of a blob determines its tree |
| `FdtTree.FlatReplace` | libxenon/drivers/libfdt/fdt_rw.c:123-135 | Replacing a subtree changes exactly the stretch of the walk between what precedes and what follows it |
| `FdtTree.FlatDelete` | libxenon/drivers/libfdt/fdt_rw.c:353-365 | Cutting a node's stretch out of the walk leaves the walk of the tree without that node |
| `FdtTree.ReplaceAt` | libxenon/drivers/libfdt/fdt_rw.c:274-290 | After replacing the node at a path, that path names the new node and everything before it in the walk is as it was |
| `FdtTree.Locate` | libxenon/drivers/libfdt/fdt.c:161-199 | Every begin-node event of a tree's walk is the start of the node at some path |
| `FdtTree.PreInjective` | libxenon/drivers/libfdt/fdt.c:161-199 | Two nodes that start at the same place in the walk have the same path |
| `FdtBlob.DecodeUnique` | libxenon/drivers/libfdt/fdt.c:93-141 | A token list with its strings decodes to at most one tree |
| `FdtUnique.TokensUnique` | libxenon/drivers/libfdt/fdt.c:93-141 | Bytes encode at most one list of tokens, whatever the padding holds |
| `FdtUnique.MapUnique` | libxenon/drivers/libfdt/fdt_ro.c:99-106 | Bytes hold at most one reserve map: it ends at the first entry of size 0 |
| `FdtUnique.ViewUnique` | libxenon/drivers/libfdt/fdt.c:93-141 | The bytes of a blob fix its reserve map, its tokens and its strings |
| `FdtUnique.BlobUnique` | libxenon/drivers/libfdt/fdt.c:93-141 | The bytes of a blob decode to at most one tree |
| `FdtBlob.OffsetPtrExact` | libxenon/drivers/libfdt/fdt.c:77-91 | The 32-bit wrapping bounds test accepts an offset and length if and only if the range lies inside the structure block, for every signed offset and every 32-bit length |
| `FdtBlob.TagAtToken` | libxenon/drivers/libfdt/fdt.c:93-141 | Reading a tag at the start of the k-th encoded token gives that token's tag and the start of the next token |
| `FdtBlob.NextTagIn` | libxenon/drivers/libfdt/fdt.c:93-141 | For every start offset, also a negative, misaligned or truncated one, the tag and next offset are those of the reference reader on the block's bytes |
| `FdtScan.CloseAtEnd` | libxenon/drivers/libfdt/fdt_wip.c:97-105 | Scanning with a depth counter from inside a node stops exactly behind its matching end tag |
| `FdtScan.SubInNode` | libxenon/drivers/libfdt/fdt_ro.c:132-149 | The depth-counting scan for a name finds the first matching direct child, past all properties and earlier subtrees, or reports that there is none |
| `FdtWalk.CheckNodeOffset` | libxenon/drivers/libfdt/fdt.c:143-150 | For every offset, also inside a token: accepted exactly when it is aligned, not negative and a begin-node tag is read there, with the offset the reader goes on at; where a token starts, accepted exactly if that is a node |
| `FdtWalk.CheckPropOffset` | libxenon/drivers/libfdt/fdt.c:152-159 | For every offset, also inside a token: accepted exactly when it is aligned, not negative and a property tag is read there; where a token starts, accepted exactly if that is a property |
| `FdtWalk.NextNode` | libxenon/drivers/libfdt/fdt.c:161-199 | From a node, or from the start for a negative offset, lands on the next begin-node event of the decoded walk with the depth changed by the nesting in between, or reports the end; every other offset that does not read as a node is BADOFFSET |
| `FdtWalk.NodeEndOffset` | libxenon/drivers/libfdt/fdt_wip.c:97-105 | The result is the offset behind the end tag that closes the whole subtree of the node |
| `FdtLookup.StringEq` | libxenon/drivers/libfdt/fdt_ro.c:83-89 | True if and only if the string stored at that offset of the string table is the name |
| `FdtLookup.NextProp` | libxenon/drivers/libfdt/fdt_ro.c:108-130 | Finds the next property before any node tag, past NOPs; otherwise NOTFOUND, or BADSTRUCTURE at the end of the structure |
| `FdtLookup.GetProperty` | libxenon/drivers/libfdt/fdt_ro.c:260-290 | Returns the token of the node's first property with the name and its length; NOTFOUND exactly when the node has none, BADOFFSET exactly when the offset is no node |
| `FdtLookup.NodenameEq` | libxenon/drivers/libfdt/fdt_ro.c:58-76 | True if and only if the node's name is the given one, or the given one followed by a unit address when it has none itself |
| `FdtLookup.SubnodeOffset` | libxenon/drivers/libfdt/fdt_ro.c:132-149 | Returns the first direct child whose name matches; NOTFOUND exactly when no child matches |
| `FdtSplice.RwCheckHeader` | libxenon/drivers/libfdt/fdt_rw.c:70-83 | On a complete, ordered blob only the version field may change, and the content stays the same |
| `FdtSplice.Splice` | libxenon/drivers/libfdt/fdt_rw.c:97-108 | Errors exactly when the range is out of the data or the result would not fit, and then changes nothing; otherwise everything behind the range moves by the difference and all other bytes stay |
| `FdtSplice.SpliceMemRsv` | libxenon/drivers/libfdt/fdt_rw.c:110-121 | As Splice, and the structure and string offsets move along |
| `FdtSplice.SpliceStruct` | libxenon/drivers/libfdt/fdt_rw.c:123-135 | As Splice, and the structure size and string offset follow |
| `FdtSplice.StructSpliceHolds` | libxenon/drivers/libfdt/fdt_rw.c:123-135 | If the spliced range covered tokens i to j and the new bytes encode other tokens, the blob now holds the token list with exactly that part replaced, and the same reserve map and strings |
| `FdtSplice.GrowsBy` | libxenon/drivers/libfdt/fdt_rw.c:97-135 | When the header changes as the edits say, the bytes in use grow by exactly what the map, the structure and the strings gained |
| `FdtEdit.FindString` | libxenon/drivers/libfdt/fdt.c:201-211 | Finds the first offset at which the string table holds the terminated name, also as the end of a longer string; a negative result means that there is none |
| `FdtEdit.FindAddString` | libxenon/drivers/libfdt/fdt_rw.c:150-170 | Fails exactly when the name is missing and does not fit; otherwise the returned offset reads as the name, existing names are unaffected, and the decoded walk is unchanged |
| `FdtEdit.ResizeProperty` | libxenon/drivers/libfdt/fdt_rw.c:205-221 | Decoding after the resize gives the tree with just that property's value replaced; failure exactly for lack of space and without effect; every header field is pinned, with the total size kept and the data grown by exactly the edit |
| `FdtEdit.AddProperty` | libxenon/drivers/libfdt/fdt_rw.c:223-249 | Decoding afterwards gives the tree with the property in front of the node's others; on failure, exactly for lack of space, the decoded tree is unchanged; every header field is pinned, with the total size kept and the data grown by exactly the edit |
| `FdtEdit.SetName` | libxenon/drivers/libfdt/fdt_rw.c:251-272 | Renaming commutes with decoding; each error under its exact condition and without effect; every header field is pinned, with the total size kept and the data grown by exactly the edit |
| `FdtEdit.SetProp` | libxenon/drivers/libfdt/fdt_rw.c:274-290 | The decoded tree has the node's first property of that name set to the value, or the property added in front; nothing else changes; NOSPACE exactly when the needed growth does not fit; every header field is pinned, with the total size kept and the data grown by exactly the edit |
| `FdtEdit.DelProp` | libxenon/drivers/libfdt/fdt_rw.c:292-305 | The decoded tree loses exactly the node's first property of that name; NOTFOUND and BADOFFSET exactly when there is none or no node, without effect; every header field is pinned, with the total size kept and the data grown by exactly the edit |
| `FdtEdit.DelNode` | libxenon/drivers/libfdt/fdt_rw.c:353-365 | The decoded tree loses exactly that node with its subtree (for the root, everything goes); fails exactly when the offset is no node, without effect; every header field is pinned, with the total size kept and the data grown by exactly the edit |
| `FdtLaws.DelThenSet` | libxenon/drivers/libfdt/fdt_rw.c:274-305 | Deleting a property and setting it again to a value no longer than before always succeeds, and gives the tree with the property set |
| `FdtAddNode.AddSubnode` | libxenon/drivers/libfdt/fdt_rw.c:307-346 | The decoded tree gains an empty node as first child and the result is its offset; EXISTS, NOSPACE and BADOFFSET under their exact conditions; an error leaves map and tree as they were if and only if the parent offset is not -1 or the node does not fit; otherwise the blob decodes to no tree at all; every header field is pinned, with the total size kept and the data grown by exactly the edit |
| `FdtAddNode.TerminatorLost` | libxenon/drivers/libfdt/fdt_rw.c:307-346 | With parent offset -1 and no gap before the structure, the begin tag lands on the reserve map's terminator, so no view with the old map fits the new bytes |
| `FdtAddNode.StructureLost` | libxenon/drivers/libfdt/fdt_rw.c:307-346 | With parent offset -1, gap or not, the structure block then starts with an end tag or with a word that is no tag, so no view of the bytes decodes to a tree |
| `FdtAddNode.NewNodeAt` | libxenon/drivers/libfdt/fdt_rw.c:307-346 | The tokens inserted behind the parent's properties are the node at child position 0, at the offset the insertion was made at |
| `FdtReserve.NumMemRsv` | libxenon/drivers/libfdt/fdt_ro.c:99-106 | Counts the entries before the terminator |
| `FdtReserve.AddMemRsv` | libxenon/drivers/libfdt/fdt_rw.c:172-187 | Appends the entry to the map and leaves tree and strings the same; an entry of size 0 reads as a terminator, so the map stays as it was; NOSPACE exactly without room for 16 bytes, and without effect; every header field is pinned, with the total size kept and the data grown by exactly the edit |
| `FdtReserve.DelMemRsv` | libxenon/drivers/libfdt/fdt_rw.c:189-203 | Removes exactly entry n, or NOTFOUND for an index above the map, without effect; for a blob at any 32-bit address the promise is kept if and only if n is not negative or the splice refuses the range; otherwise the exact bytes that result; every header field is pinned, with the total size kept and the data grown by exactly the edit |
| `FdtReserve.HeaderLost` | libxenon/drivers/libfdt/fdt_rw.c:110-203 | Deleting entry -1 of a map directly behind the header overwrites the structure size by the first entry's size |
| `FdtReserve.FirstLost` | libxenon/drivers/libfdt/fdt_rw.c:110-203 | With room in front of the map a negative index deletes the first entry instead |
| `FdtNop.NopRegion` | libxenon/drivers/libfdt/fdt_wip.c:75-81 | Writes NOP words over the region rounded up to whole words and nothing else |
| `FdtNop.NopProperty` | libxenon/drivers/libfdt/fdt_wip.c:83-95 | Decoding loses exactly the property, as with deletion, while the header and the offsets of all other tokens stay the same |
| `FdtNop.NopNode` | libxenon/drivers/libfdt/fdt_wip.c:107-118 | Decoding loses exactly the subtree, as with deletion, while the header and the offsets of all other tokens stay the same |
| `FdtPack.PackBlocks` | libxenon/drivers/libfdt/fdt_rw.c:367-387 | The in-place overlapping moves keep the content of all three blocks and put them directly behind each other |
| `FdtPack.Pack` | libxenon/drivers/libfdt/fdt_rw.c:453-465 | Tree, reserve map and strings are preserved and the recorded total size is exactly the data used, never more than before |
| `FdtOpen.StructSize` | libxenon/drivers/libfdt/fdt_rw.c:389-451 | Walking to the end tag measures the structure block of a version 16 blob exactly |
| `FdtOpen.OpenInto` | libxenon/drivers/libfdt/fdt_rw.c:389-451 | For version 16 or 17 and blocks in any order, the new buffer holds the same tree, reserve map and strings as an ordered version 17 blob; NOSPACE exactly when the required size exceeds the buffer, with the buffer untouched |
| `FdtDraft.EventsPrepended` | libxenon/drivers/libfdt/fdt_sw.c:168-189 | Strings added below the existing ones leave the meaning of every negative name offset the same |
| `FdtWriter.Create` | libxenon/drivers/libfdt/fdt_sw.c:88-108 | Starts an empty draft, or fails exactly for a buffer without room for the header |
| `FdtWriter.AddReservemapEntry` | libxenon/drivers/libfdt/fdt_sw.c:110-131 | Appends the entry to the draft's map; BADSTATE once the structure was begun, NOSPACE exactly without room, both without effect; the result is a draft if and only if the entry does not reach into strings added earlier |
| `FdtWriter.GrabSpace` | libxenon/drivers/libfdt/fdt_sw.c:73-86 | On a draft that fits its buffer, grants the range behind the structure exactly when it does not reach the downward-growing strings; on one that does not fit, always grants; a granted range lies in the buffer if and only if the draft fits |
| `FdtWriter.GrantedOutside` | libxenon/drivers/libfdt/fdt_sw.c:73-86 | In a fresh buffer of 40 bytes the space left is -8, which compares as 2^32 - 8, so every request is granted, from byte 48 on |
| `FdtWriter.BeginNode` | libxenon/drivers/libfdt/fdt_sw.c:138-152 | The draft's walk gains the begin event; NOSPACE exactly when the structure would meet the strings, without effect; the stores leave the buffer exactly when the draft does not fit it |
| `FdtWriter.EndNodeTag` | libxenon/drivers/libfdt/fdt_sw.c:154-166 | The draft's walk gains the end event; NOSPACE exactly when the structure would meet the strings, without effect; the store leaves the buffer exactly when the draft does not fit it |
| `FdtWriter.FindAddName` | libxenon/drivers/libfdt/fdt_sw.c:168-189 | The negative offset reads as the name from the end of the strings, shared with an existing suffix where possible; earlier names keep their meaning; without room 0, unless a new name is so long that it would start below the buffer: the test wraps exactly then |
| `FdtWriter.WriteProperty` | libxenon/drivers/libfdt/fdt_sw.c:191-211 | The draft's walk gains the property with its name and value; NOSPACE exactly when structure and strings would meet, and then the walk is unchanged; the stores leave the buffer exactly when strings and a new name exceed it |
| `FdtFinish.FixNames` | libxenon/drivers/libfdt/fdt_sw.c:213-256 | The loop over all tags turns every negative name offset into the one from the start of the strings and changes nothing else |
| `FdtFinish.Finish` | libxenon/drivers/libfdt/fdt_sw.c:213-256 | With a closed reserve map, the finished blob decodes to exactly the events that were written, with the draft's map and a total size equal to the data used; NOSPACE exactly without room for the end tag |
| `FdtRoundTrip.WriteTree` | libxenon/drivers/libfdt/fdt_sw.c:138-211 | Writing a tree by begin, property and end calls appends exactly its walk, and succeeds if and only if structure and strings have room for it; it leaves the buffer if and only if all events up to some property have room and the strings with its name exceed the buffer |
| `FdtRoundTrip.WriteBlob` | libxenon/drivers/libfdt/fdt_sw.c:73-256 | For every tree and reserve list a run from creation to finish succeeds if and only if the buffer has room for header, map, structure and pooled strings, and then the bytes decode to exactly that tree and list and to nothing else; otherwise NOSPACE, except that the stores leave the buffer if and only if the map fits and a property name bursts it |
| `FdtRoundTrip.FitsNoBurst` | libxenon/drivers/libfdt/fdt_sw.c:168-189 | A tree whose pooled strings are no longer than the buffer never makes the writer leave it |
| `FdtRoundTrip.LongName` | libxenon/drivers/libfdt/fdt_sw.c:168-189 | A root with one property whose name is as long as the buffer makes the writer store below the buffer instead of answering NOSPACE |
| `FdtAncestor.ScanStack` | libxenon/drivers/libfdt/fdt_ro.c:409-443 | The depth reported by the walk is the number of open nodes, and the nodes that stay open are the same ones |
| `FdtAncestor.SupernodeAtDepth` | libxenon/drivers/libfdt/fdt_ro.c:409-443 | For every offset: returns the node's true ancestor at that depth and the node's depth; NOTFOUND exactly for a depth that is negative or below the node; an error for an offset that is no node |
| `FdtAncestor.NodeDepth` | libxenon/drivers/libfdt/fdt_ro.c:445-454 | Equals the length of the node's path; negative exactly when the offset is no node |
| `FdtAncestor.ParentOffset` | libxenon/drivers/libfdt/fdt_ro.c:456-464 | Returns the true parent; NOTFOUND exactly for the root |
| `FdtPath.GetPath` | libxenon/drivers/libfdt/fdt_ro.c:357-407 | For every offset: writes the terminated path text of exactly that node, NOSPACE exactly when it does not fit, BADOFFSET for an offset that is no node; the source reads in front of the buffer if and only if the buffer has two bytes and the offset is at or past the end of the root |
| `FdtPath.EndTagPast` | libxenon/drivers/libfdt/fdt_ro.c:357-407 | In every blob the offset of the final tag is past the root, so there the source reads in front of the buffer |
| `FdtPathLookup.LookupExact` | libxenon/drivers/libfdt/fdt_ro.c:157-199 | Looking up a node's own component names finds that node if and only if no earlier sibling of a component matches its name |
| `FdtPathLookup.ComponentsPrinted` | libxenon/drivers/libfdt/fdt_ro.c:357-407 | Splitting the printed path at its slashes gives back the names on the way to the node |
| `FdtPathLookup.PathOffset` | libxenon/drivers/libfdt/fdt_ro.c:157-199 | Returns the node that following first matching children reaches, for any number of slashes between components; NOTFOUND exactly when a component has no match |
| `FdtPathLookup.PathRoundTrip` | libxenon/drivers/libfdt/fdt_ro.c:157-407 | Looking up the text that a successful path print wrote returns the same offset if and only if no earlier sibling shadows a component |
| `FdtSample.SampleHolds` | libxenon/drivers/libfdt/fdt.h:1-60 | A blob written out byte by byte in the device tree format is one in the model: header, reserve map, tags, alignment and byte order |
| `FdtSample.SampleDecodes` | libxenon/drivers/libfdt/fdt.c:93-141 | That blob decodes to the tree it was written for |
| `FdtSample.ErrorCodes` | libxenon/drivers/libfdt/libfdt.h:61-120 | The error codes have the numbers of the library's header |
| `MallocLock.StepInv` | libxenon/drivers/newlib/xenon_syscalls.c:149-216 | Every memory access of every thread keeps the protocol's invariant |
| `MallocLock.RunInv` | libxenon/drivers/newlib/xenon_syscalls.c:149-216 | Every state of every run, for any number of threads, satisfies the invariant |
| `MallocLock.MallocLockSafe` | libxenon/drivers/newlib/xenon_syscalls.c:149-216 | In every run: at most one thread is inside, the count equals the owner's nesting depth and the owner word its number, no assertion fires, and while a thread is about to wait for the malloc lock, a taken safety lock is another thread's |
| `MallocLock.BranchExact` | libxenon/drivers/newlib/xenon_syscalls.c:149-216 | The stale owner and count that a thread branches on decide exactly as a look at the current owner would |
| `MallocLock.NoDeadlock` | libxenon/drivers/newlib/xenon_syscalls.c:149-216 | While any call is in progress, some thread in a call can take a step or a thread outside holds the lock and may release it |
| `Heap.Apart` | libxenon/drivers/nocfe/lib_malloc.c:93-104 | Nodes that tile the buffer are ordered and do not overlap |
| `Heap.LiveDisjoint` | libxenon/drivers/nocfe/lib_malloc.c:266-393 | The data ranges of two nodes of a tiled heap are inside the buffer and disjoint |
| `Heap.CoalesceIdle` | libxenon/drivers/nocfe/lib_malloc.c:153-190 | Compacting a heap without free neighbours changes nothing |
| `Heap.PassCoalesce` | libxenon/drivers/nocfe/lib_malloc.c:153-190 | A pass of pairwise merges keeps the fully merged form, and a pass that merged nothing means it is reached; so the repeated passes end in it |
| `Heap.MergeTiled` | libxenon/drivers/nocfe/lib_malloc.c:153-190 | Merging two neighbours leaves a heap that still tiles the buffer exactly |
| `Heap.AllFree` | libxenon/drivers/nocfe/lib_malloc.c:93-104 | When every block has been freed the heap is one free node over the whole buffer, as it was initialised, with its data field somewhere in it |
| `Heap.RoundedExact` | libxenon/drivers/nocfe/lib_malloc.c:266-290 | The 32-bit rounding of a request is the true rounding if and only if the size is at most 2^32 - 4 |
| `Heap.NeedExact` | libxenon/drivers/nocfe/lib_malloc.c:290-312 | The 32-bit space estimate is the true one if and only if the true one is below 2^32 |
| `Heap.WrapExample` | libxenon/drivers/nocfe/lib_malloc.c:290-312 | A request of 2^31 bytes in a pool of 1 MB passes the size test because the estimate wraps to 4, and the block then leaves its node |
| `Heap.WrapHarmless` | libxenon/drivers/nocfe/lib_malloc.c:290-312 | An estimate that wraps need not do harm: the block may fit all the same, or no node pass |
| `Heap.HeaderExample` | libxenon/drivers/nocfe/lib_malloc.c:290-393 | A request whose block fits but not the header of the node split off behind it |
| `Heap.PlaceAligned` | libxenon/drivers/nocfe/lib_malloc.c:313-393 | The granted address is a multiple of the requested alignment |
| `Heap.PlaceOk` | libxenon/drivers/nocfe/lib_malloc.c:313-393 | The granted node and a possible remainder cover the chosen node exactly and are well formed |
| `Heap.PlaceRoom` | libxenon/drivers/nocfe/lib_malloc.c:313-393 | The granted node has room for every size the chosen node had room for, and a remainder after a true estimate is big enough to be used |
| `Heap.AllocatedOk` | libxenon/drivers/nocfe/lib_malloc.c:266-393 | After an allocation the nodes still tile the buffer and no two free ones are neighbours |
| `HeapMem.SubstRep` | libxenon/drivers/nocfe/lib_malloc.c:153-190 | Rewriting the headers of neighbouring nodes inside their own words replaces just those nodes of the represented list |
| `HeapMem.CoalesceKeeps` | libxenon/drivers/nocfe/lib_malloc.c:153-190 | Merging free nodes neither loses nor adds a live block |
| `HeapMem.AllocThenFree` | libxenon/drivers/nocfe/lib_malloc.c:205-393 | Freeing a block right after allocating it gives back the node list, but for the data field of the one free node |
| `HeapMem.PayloadWrites` | libxenon/drivers/nocfe/lib_malloc.c:266-393 | Whatever the owner writes into a block leaves the heap's nodes and back pointers the same |
| `HeapMem.Conserved` | libxenon/drivers/nocfe/lib_malloc.c:396-444 | Allocated bytes, free bytes and headers add up to the position reached in the buffer |
| `HeapMem.SafeRequest` | libxenon/drivers/nocfe/lib_malloc.c:266-393 | Requests whose sums cannot wrap get a good block in the first node that is big enough |
| `HeapMem.GrantExact` | libxenon/drivers/nocfe/lib_malloc.c:266-393 | What a request that cannot wrap gets, in numbers: the first aligned address, the size rounded up to words, and a free node behind it exactly if 64 bytes are left beyond the estimate |
| `HeapMem.NoWrapGood` | libxenon/drivers/nocfe/lib_malloc.c:290-393 | A node whose true estimate is below 2^32 and passes always serves the request |
| `HeapMem.HeapLost` | libxenon/drivers/nocfe/lib_malloc.c:364-393 | When the block fits but not the header behind it, no list of nodes describes the pool any more |
| `HeapMem.KMem.constructor` | libxenon/drivers/nocfe/lib_malloc.c:93-104 | Builds one free node over the whole buffer |
| `HeapMem.KMem.CompactPass` | libxenon/drivers/nocfe/lib_malloc.c:153-190 | One walk over the list merges as the pass on node lists does, counts its merges and leaves every live block's words alone |
| `HeapMem.KMem.Compact` | libxenon/drivers/nocfe/lib_malloc.c:153-190 | Terminates with the fully merged list, so without free neighbours, every live payload untouched |
| `HeapMem.KMem.Kfree` | libxenon/drivers/nocfe/lib_malloc.c:205-231 | Finds the node through the back pointer, releases exactly that block and merges its neighbours; the live blocks afterwards are exactly the others, each with all its words untouched; a pointer outside the pool changes nothing |
| `HeapMem.KMem.Search` | libxenon/drivers/nocfe/lib_malloc.c:290-312 | Stops at the first free node that passes the source's 32-bit test, or reports that there is none |
| `HeapMem.KMem.Kmalloc` | libxenon/drivers/nocfe/lib_malloc.c:266-393 | For every size and power-of-two alignment: NULL and no change exactly when no node passes; otherwise the block has the requested size inside the first node that passes if and only if size and padding fit there, and then what is left is a heap if and only if a header split off fits too; the granted block is aligned, has its back pointer, is the one live block more, and no word outside the node changes; the address is a multiple of the alignment, or of eight if that is below four |
| `HeapMem.KMem.Foresee` | libxenon/drivers/nocfe/lib_malloc.c:266-393 | Tells whether a request is going to be refused or to find a node that suits it |
| `HeapMem.KMem.Kmemstats` | libxenon/drivers/nocfe/lib_malloc.c:396-444 | Never finds an inconsistent node on a well-formed heap; counts and sizes are exact and add up to the pool |
| `HeapRuns.Client.Do` | libxenon/drivers/nocfe/lib_malloc.c:205-393 | The caller holds exactly the live blocks, each once, aligned, with room for what was asked and with the words it last wrote there, and one more request, free or store keeps that |
| `HeapRuns.Client.Run` | libxenon/drivers/nocfe/lib_malloc.c:205-393 | Every run of requests, frees and stores of the caller keeps the heap well formed and every held block intact in every state, and each state follows from the one before by that call; it stops only before a request that finds a node without room, never if the requests cannot wrap |
| `HeapRuns.Client.FreeAll` | libxenon/drivers/nocfe/lib_malloc.c:93-231 | Freeing everything held restores the single free node over the whole buffer |
| `HeapRuns.Session` | libxenon/drivers/nocfe/lib_malloc.c:93-393 | A heap that was built, used by any run and freed again is the single node it was built as |
| `HeapRuns.SafeServed` | libxenon/drivers/nocfe/lib_malloc.c:266-393 | Requests whose sums cannot wrap are served or refused well in every state |
| `OhciSteps.AllocInv` | libxenon/drivers/usb/ohci.c:415-448 | Taking the first free descriptor keeps the invariant |
| `OhciSteps.FreeInv` | libxenon/drivers/usb/ohci.c:498-502 | Returning a held descriptor keeps the invariant |
| `OhciSteps.RetireInv` | libxenon/drivers/usb/ohci.c:945-1050 | The controller's moving of the head descriptor to the done list, with any condition code and any number of bytes, keeps the invariant |
| `OhciSteps.WritebackInv` | libxenon/drivers/usb/ohci.c:1066-1110 | The controller's write-back of the done list keeps the invariant |
| `OhciSteps.TakeInv` | libxenon/drivers/usb/ohci.c:1066-1110 | Reading and acknowledging the done head hands the whole list to the driver |
| `OhciSteps.DoneInv` | libxenon/drivers/usb/ohci.c:945-1050 | Accounting one descriptor to its request keeps counters, bytes and lists in agreement |
| `OhciSteps.BeginInv` | libxenon/drivers/usb/usbd.c:502-515 | Starting a submission of a request that is not in progress keeps the invariant |
| `OhciSteps.ChunkInv` | libxenon/drivers/usb/ohci.c:1643-1694 | Filling the old dummy and linking a new one keeps the invariant while the endpoint is live and the tail pointer lags behind |
| `OhciSteps.CommitInv` | libxenon/drivers/usb/ohci.c:1690-1711 | Publishing the new tail pointer completes the submission |
| `OhciSteps.ResumeInv` | libxenon/drivers/usb/ohci.c:1690-1711 | Clearing the halt bit of the head pointer that is in memory keeps the invariant |
| `OhciSteps.OpenInv` | libxenon/drivers/usb/ohci.c:1248-1335 | Opening an endpoint on a held descriptor as its dummy keeps the invariant |
| `OhciSteps.SkipInv` | libxenon/drivers/usb/ohci.c:1445-1534 | Setting an endpoint's skip flag keeps the invariant |
| `OhciSteps.CancelInv` | libxenon/drivers/usb/ohci.c:1445-1534 | Cancelling one queued descriptor of a skipped endpoint keeps the invariant |
| `OhciSteps.CloseInv` | libxenon/drivers/usb/ohci.c:1445-1534 | Giving up the dummy of an emptied endpoint keeps the invariant |
| `OhciHw.HeadStable` | libxenon/drivers/usb/ohci.c:1690-1711 | A head pointer loaded now stays right whatever the controller does until the store if and only if the endpoint is halted or its queue is empty |
| `OhciHw.LostUpdate` | libxenon/drivers/usb/ohci.c:1690-1711 | Wherever the controller can retire the head descriptor, doing so between the load and the store leaves memory that no bookkeeping makes consistent |
| `OhciHw.StaleBreaks` | libxenon/drivers/usb/ohci.c:1690-1711 | Storing a head pointer whose descriptor has been retired breaks the invariant for any bookkeeping |
| `OhciHw.OneByteInv` | libxenon/drivers/usb/ohci.c:1690-1711 | A concrete consistent state with one descriptor of one byte queued, which the controller can retire |
| `OhciHw.FreshHead` | libxenon/drivers/usb/ohci.c:1690-1711 | Storing the head pointer that is in memory keeps the invariant |
| `Ohci.ExactlyOne` | libxenon/drivers/usb/ohci.c:415-502 | In every reachable state each descriptor is on exactly one list |
| `Ohci.CountExact` | libxenon/drivers/usb/ohci.c:945-1050 | A request's descriptor count is the number of its outstanding descriptors |
| `Ohci.Completed` | libxenon/drivers/usb/ohci.c:945-1050 | A request that is not in progress was completed exactly as often as submitted; its transferred bytes are the bytes moved, which is its length less what descriptors fell short by |
| `Ohci.Pending` | libxenon/drivers/usb/ohci.c:945-1050 | A request in progress has one completion to come and at least one outstanding descriptor |
| `Ohci.Controller.constructor` | libxenon/drivers/usb/ohci.c:553-584 | Every descriptor starts on the free list |
| `Ohci.Controller.AllocXfer` | libxenon/drivers/usb/ohci.c:415-448 | Takes the head of the free list, or reports an empty list without effect |
| `Ohci.Controller.FreeXfer` | libxenon/drivers/usb/ohci.c:498-502 | Puts the descriptor in front of the free list and nothing else moves |
| `Ohci.Controller.HwRetire` | libxenon/drivers/usb/ohci.c:945-1050 | A controller step between driver steps: the head descriptor goes to the done list and the lists held by running routines stay as they are |
| `Ohci.Controller.HwRun` | libxenon/drivers/usb/ohci.c:945-1110 | Any sequence of controller steps keeps the invariant and all driver-owned state |
| `Ohci.Controller.PushAll` | libxenon/drivers/usb/ohci.c:1643-1694 | Queues one descriptor for each piece of the buffer behind what was queued: the pieces follow each other without gap or overlap in order, whatever the controller does in between |
| `Ohci.Controller.Commit` | libxenon/drivers/usb/ohci.c:1690-1711 | The store that clears the halt bit is fine exactly when the controller left the head pointer alone since the load; then the submission is complete; otherwise memory is left that no bookkeeping makes consistent |
| `Ohci.Controller.Xfer` | libxenon/drivers/usb/ohci.c:1554-1711 | If the store that clears the halt bit is fine: the request counts one more submission and as many descriptors as its length needs, one for each piece of the buffer in order; all other requests are unchanged; every list and counter stays consistent whatever the controller does before, between and after the chunks. If it is not: the lost head update of Commit |
| `Ohci.Controller.ProcDoneQ` | libxenon/drivers/usb/ohci.c:945-1050 | Settles the whole list it was given in order, each descriptor once, with controller steps around every descriptor and callbacks that call the driver again, and leaves the lists and descriptors of suspended routines alone, unless a callback loses a head update or takes an odd done head |
| `Ohci.Controller.Intr` | libxenon/drivers/usb/ohci.c:1066-1110 | Takes what was written back and settles exactly those descriptors, once each and in their order, with the bytes and code they were retired with, whatever controller and callbacks do meanwhile; the state is that of the function on states, and the requests are what the history makes of them; nothing happens if nothing was written back; a done head with bit 0 set is always taken for a descriptor address |
| `Ohci.Controller.EptCreate` | libxenon/drivers/usb/ohci.c:1248-1335 | The endpoint opens with an empty queue whose head and tail are one fresh dummy |
| `Ohci.Controller.EptDelete` | libxenon/drivers/usb/ohci.c:1445-1534 | Cancels exactly the descriptors that were queued, once each and in order, and gives up the dummy, whatever the callbacks do and with controller steps after the skip flag, around every descriptor and before the close, unless a callback loses a head update or takes an odd done head |
| `Ohci.Controller.Do` | libxenon/drivers/usb/ohci.c:945-1711 | Each call that ends well leaves the state that the function on states gives for it; it settles nothing from the lists of suspended routines |
| `Ohci.Controller.Run` | libxenon/drivers/usb/ohci.c:945-1711 | Every sequence of driver calls, controller steps between their steps, and nested callbacks keeps the invariant and follows the function on states, so the four lemmas above hold after each, up to the first lost head update or odd done head; runs in which the controller sets no bit 0 and retires nothing of an endpoint between a load and a store of its head pointer have neither |
| `OhciLaws.QuietIntr` | libxenon/drivers/usb/ohci.c:945-1110 | An interrupt with nothing else going on leaves no done list pending and every written-back descriptor on the free list; each request has as many descriptors fewer as it had there, the bytes those moved more, and one completion more exactly if none is left |
| `OhciLaws.Quiet` | libxenon/drivers/usb/ohci.c:945-1110 | The same of the function on states |
| `OhciLaws.ReplayEntries` | libxenon/drivers/usb/ohci.c:945-1050 | Settling a list of descriptors credits each request with its own and completes it exactly with its last |
| `OhciLaws.CalledBack` | libxenon/drivers/usb/ohci.c:945-1050 | The completion callback is made exactly when a settlement completes its request |
| `OhciLaws.LastCode` | libxenon/drivers/usb/ohci.c:945-1050 | A request's status is the code of the last descriptor settled for it, or cancelled if it completed while its device was being removed |
| `SchedPolicy.Best` | libxenon/drivers/threads/c_threads.c:376-388 | The winner is the first thread whose priority plus boost is highest |
| `SchedPolicy.Gains` | libxenon/drivers/threads/c_threads.c:390-400 | A top thread passed over k times has gained k boosts or its maximum, and the top group stays the same |
| `SchedPolicy.Spent` | libxenon/drivers/threads/c_threads.c:349-400 | Once a thread has its full boost, each further decision it loses uses up a different rival |
| `SchedPolicy.BoundedWait` | libxenon/drivers/threads/c_threads.c:349-400 | Among at most B+1 top threads with maximal boost B, every one is chosen within 2B+1 decisions |
| `SchedPolicy.Starved` | libxenon/drivers/threads/c_threads.c:349-400 | The bound on the group is exact: for every B there are B+2 such threads of which one is never chosen |
| `SchedSteps.OnOneList` | libxenon/drivers/threads/c_threads.c:293-371 | Every thread is on exactly one list: a processor's ring, a processor's stack of arrivals, or unused; a valid thread is with the processor it names |
| `SchedSteps.ReapInv` | libxenon/drivers/threads/c_threads.c:293-322 | Unlinking and freeing a terminated thread keeps all rings consistent |
| `SchedSteps.MigrateInv` | libxenon/drivers/threads/c_threads.c:795-841 | Moving a thread to another processor's stack keeps all rings and stacks consistent |
| `SchedSteps.TakeOverInv` | libxenon/drivers/threads/c_threads.c:324-346 | Linking an arrived thread into the ring keeps all rings and stacks consistent |
| `SchedSteps.CreateInv` | libxenon/drivers/threads/c_threads.c:703-765 | Linking a new thread in keeps all rings and stacks consistent |
| `Sched.Scheduler.constructor` | libxenon/drivers/threads/c_threads.c:955-996 | Every processor starts with a ring of its idle thread alone, current there |
| `Sched.Scheduler.Adjust` | libxenon/drivers/threads/c_threads.c:843-917 | Any change of one thread's suspend count, handle, sleep, end or priorities leaves every list as it is and every other thread unchanged |
| `Sched.Scheduler.PoolAlloc` | libxenon/drivers/threads/c_threads.c:619-638 | Finds the first slot that is neither valid nor held by a handle, or there is none |
| `Sched.Scheduler.Create` | libxenon/drivers/threads/c_threads.c:701-765 | The new thread is first in its processor's ring with priority 7, maximal boost 5 and an open handle, suspended once if so asked and ready otherwise; other threads change at most in their links, and no current thread changes; without a free slot nothing changes |
| `Sched.Scheduler.SetProcessor` | libxenon/drivers/threads/c_threads.c:795-841 | The thread leaves its ring for the top of the target's stack; other threads change at most in their links, no other list and no current thread changes; nothing happens if it is there already |
| `Sched.Scheduler.ReapPass` | libxenon/drivers/threads/c_threads.c:293-322 | The ring keeps exactly its live threads in order; when its first thread is freed the pass ends there; wakes sleepers whose time has come |
| `Sched.Scheduler.Drain` | libxenon/drivers/threads/c_threads.c:324-346 | All arrivals join the ring in order of arrival, in front of the threads already there, and the stack is empty |
| `Sched.Scheduler.BuildReady` | libxenon/drivers/threads/c_threads.c:348-371 | The ready ring holds exactly the ready threads of the run ring, in reverse order |
| `Sched.Scheduler.Pick` | libxenon/drivers/threads/c_threads.c:376-388 | The walk over the ready ring chooses the thread the policy chooses |
| `Sched.Scheduler.Boost` | libxenon/drivers/threads/c_threads.c:390-399 | Every ready thread but the winner ages by one up to its maximum; nobody else changes |
| `Sched.Scheduler.Core` | libxenon/drivers/threads/c_threads.c:282-400 | The whole routine: surviving and arrived threads form the ring, the winner is ready and is the policy's choice, the losers age |
| `Sched.Scheduler.Schedule` | libxenon/drivers/threads/c_threads.c:454-484 | The ready list's ranks change by exactly one decision of the policy, and the winner becomes current |
| `Sched.TickSound` | libxenon/drivers/threads/c_threads.c:282-484 | Every decision of a run makes a thread of the processor's ring current that is in use, not ended, not suspended and not asleep, and none of those there exceeds it in priority plus boost |
| `Sched.TickBoost` | libxenon/drivers/threads/c_threads.c:376-484 | A decision takes the winner's boost away, gives one to every other thread of the ring that may run up to its maximum, and changes no other rank |
| `Sched.TickWake` | libxenon/drivers/threads/c_threads.c:294-304 | A decision clears exactly the timers of the ring that have run out, unless it stopped at a dead first thread, and leaves the other status fields of living threads alone |
| `Sched.TickRing` | libxenon/drivers/threads/c_threads.c:293-346 | After a decision the ring holds all arrivals and all threads it had but those ended without an open handle; when the first is such a thread, the others stay |
| `Sched.Scheduler.RunAll` | libxenon/drivers/threads/c_threads.c:282-917 | Every run of creations, migrations, changes and decisions, on any processors in any order, keeps all lists consistent in every state, and each state follows from the one before exactly as that call's contract says |
| `SchedRuns.RanksAfter` | libxenon/drivers/threads/c_threads.c:282-484 | While other calls leave a processor's threads alone and none of its sleepers is due, its ready list stays the same and the ranks after n of its decisions are those of n decisions of the policy, whatever other processors do in between |
| `SchedRuns.BoundedWaiting` | libxenon/drivers/threads/c_threads.c:282-484 | In such a stretch of any run, of at most B+1 top threads with maximal boost B each wins within 2B+1 decisions of its processor |
| `SchedRuns.Decisions` | libxenon/drivers/threads/c_threads.c:282-484 | The real scheduler over such a stretch: each winner is the policy's, and each of few enough top threads wins in time |
| `DesKeys.ReversePairs` | libxenon/drivers/crypt/des.c:370-381 | The in-place swaps reverse the schedule pair by pair |
| `DesKeys.Set2Key` | libxenon/drivers/crypt/des.c:383-406 | The encryption schedule is k1, reversed k2, k1, and the decryption one reversed k1, k2, reversed k1 |
| `DesKeys.Set3Key` | libxenon/drivers/crypt/des.c:430-451 | The encryption schedule is k1, reversed k2, k3, and the decryption one reversed k3, k2, reversed k1 |
| `DesKeys.SchedulesReverse` | libxenon/drivers/crypt/des.c:383-451 | The triple-DES decryption schedule is the exact reversal of the encryption schedule |
| `Des.FinalInverts` | libxenon/drivers/crypt/des.c:245-270 | The final permutation undoes the initial one on every block |
| `Des.InitialInverts` | libxenon/drivers/crypt/des.c:245-270 | The initial permutation undoes the final one on every block |
| `DesTables.InitialPermutation` | libxenon/drivers/crypt/des.c:246-257 | Each of the 64 bits goes where the table IP of FIPS 46-3 sends it, the halves being kept rotated by one |
| `DesTables.RoundFunction` | libxenon/drivers/crypt/des.c:273-288 | Each S-box gets the six bits that the table E of FIPS 46-3 selects from the right half, xored with its six subkey bits |
| `Des.RoundsUndo` | libxenon/drivers/crypt/des.c:275-290 | Rounds with reversed subkeys on the swapped halves undo the rounds, for any number of rounds, S-boxes and keys |
| `Des.CryptUndo` | libxenon/drivers/crypt/des.c:478-501 | The cipher with reversed subkeys undoes the cipher |
| `Des.Fused` | libxenon/drivers/crypt/des.c:554-590 | Three ciphers in a row equal one run of three groups of rounds without the permutations in between |
| `Des.Crypt3Undo` | libxenon/drivers/crypt/des.c:554-590 | Triple DES with the reversed schedules undoes triple DES |
| `DesBytes.CipherUndo` | libxenon/drivers/crypt/des.c:478-590 | Reversed subkeys undo the cipher for a single or a triple schedule |
| `DesBytes.CbcBlock` | libxenon/drivers/crypt/des.c:506-637 | Each ciphertext block is the encrypted sum of its plaintext block and the ciphertext block before it |
| `DesBytes.CbcPlain` | libxenon/drivers/crypt/des.c:506-637 | Each plaintext block is the sum of its decrypted block and the ciphertext block before it |
| `DesBytes.CbcUndo` | libxenon/drivers/crypt/des.c:506-549 | CBC decryption undoes CBC encryption for every initial vector and any number of blocks |
| `DesBytes.CbcEncSplit` | libxenon/drivers/crypt/des.c:506-549 | Encrypting in two calls with the carried vector equals encrypting at once |
| `DesBytes.CbcDecSplit` | libxenon/drivers/crypt/des.c:506-549 | Decrypting in two calls with the carried vector equals decrypting at once |
| `DesBytes.GetPut` | libxenon/drivers/crypt/des.c:40-58 | Storing a block as bytes and loading it gives the block |
| `DesBytes.PutGet` | libxenon/drivers/crypt/des.c:40-58 | Loading eight bytes and storing them gives the bytes |
| `DesCode.SixteenRounds` | libxenon/drivers/crypt/des.c:478-501 | The unrolled rounds with their alternating roles are sixteen rounds of the cipher |
| `DesCode.CryptBlock` | libxenon/drivers/crypt/des.c:478-590 | The code for one block, single or fused triple, computes the cipher; the triple one the composition of three |
| `DesCode.Ecb` | libxenon/drivers/crypt/des.c:478-590 | Writes the enciphered eight bytes and nothing else, also in place |
| `DesCode.CbcEncrypt` | libxenon/drivers/crypt/des.c:506-637 | The buffer holds the CBC encryption, the vector is the one the next call needs, and bytes behind stay; also in place and for lengths that are no multiple of 8 |
| `DesCode.CbcDecrypt` | libxenon/drivers/crypt/des.c:506-637 | The buffer holds the CBC decryption, the vector is the last input block even in place, and bytes behind stay |
| `DesCode.BufferRoundTrip` | libxenon/drivers/crypt/des.c:506-637 | Decrypting with the reversed schedule what was encrypted gives back the plaintext bytes |
| `DesRoundTrip.CbcBothWays` | libxenon/drivers/crypt/des.c:506-637 | Encrypting and decrypting in place with opposite schedules from the same vector restores every byte, for every length |
| `DesRoundTrip.EcbBothWays` | libxenon/drivers/crypt/des.c:478-590 | The same for one block |
| `DesRoundTrip.DesRoundTrip` | libxenon/drivers/crypt/des.c:370-549 | Key setup, encryption and decryption with one key restore the buffer |
| `DesRoundTrip.Des2RoundTrip` | libxenon/drivers/crypt/des.c:383-637 | The same for triple DES with two keys |
| `DesRoundTrip.Des3RoundTrip` | libxenon/drivers/crypt/des.c:430-637 | The same for triple DES with three keys |
| `Sha.SameF` | libxenon/drivers/crypt/sha1.c:43-48 | The macros' shortcuts for the round functions equal the functions of section 4.1.1 of FIPS 180-4 |
| `Sha.MacroIs` | libxenon/drivers/crypt/sha1.c:43-48 | A round macro with its rotated roles is one round of section 6.1.2 of FIPS 180-4 |
| `ShaCode.Blk` | libxenon/drivers/crypt/sha1.c:40-41 | The circular 16-word buffer yields word t of the 80-word message schedule |
| `ShaCode.EightyRounds` | libxenon/drivers/crypt/sha1.c:67-87 | The in-place rounds compute the 80 rounds of the standard |
| `ShaSchedule.StrideTwice` | libxenon/drivers/crypt/sha1.c:40-41 | The schedule rule put into itself holds with all distances and rotations doubled |
| `ShaSchedule.OnlyZeros` | libxenon/drivers/crypt/sha1.c:40-96 | The last sixteen words of a block's schedule are the block itself if and only if the block is zero |
| `ShaVector.AbcDigest` | libxenon/drivers/crypt/sha1.c:100-155 | The digest of abc is the one that FIPS 180 publishes |
| `ShaVector.RoundConstants` | libxenon/drivers/crypt/sha1.c:43-48 | The round constants are the integer parts of 2^30 times the square roots of 2, 3, 5 and 10 |
| `ShaCode.CountAdds` | libxenon/drivers/crypt/sha1.c:115-116 | The two 32-bit counters with their carry test hold the 64-bit bit count, modulo 2^64 |
| `ShaContext.Context.Init` | libxenon/drivers/crypt/sha1.c:100-108 | The context stands for the empty message |
| `ShaContext.Context.Transform` | libxenon/drivers/crypt/sha1.c:56-96 | The state becomes the compression of the block; the 64 bytes are overwritten by the last schedule words, all others stay |
| `ShaContext.Context.Absorb` | libxenon/drivers/crypt/sha1.c:117-123 | Completes the buffered block and hashes whole blocks, leaving less than a block |
| `ShaContext.Context.Update` | libxenon/drivers/crypt/sha1.c:111-127 | The context stands for the message with the data appended, however it was cut up; every whole block hashed straight from the caller's data then holds the last words of its own schedule and all other bytes stay; the data are intact if and only if all those blocks are zero |
| `ShaContext.Intact` | libxenon/drivers/crypt/sha1.c:111-127 | Data whose blocks were replaced by the end of their schedules are unchanged if and only if the blocks were zero |
| `ShaContext.SecondBlockLost` | libxenon/drivers/crypt/sha1.c:111-127 | Two blocks fed into a fresh context: the first comes back as it was, the second does not when its last byte is 1 |
| `ShaContext.Context.PadOut` | libxenon/drivers/crypt/sha1.c:131-145 | Feeding the padding bytes one at a time hashes the message padded as in section 5.1.1 of FIPS 180-4 |
| `ShaContext.Context.Final` | libxenon/drivers/crypt/sha1.c:131-155 | Returns SHA-1 of everything appended, and wipes the context |
| `Hmac.Context.Init` | libxenon/drivers/crypt/hmac_sha1.c:71-77 | The context stands for the empty key |
| `Hmac.Context.UpdateKey` | libxenon/drivers/crypt/hmac_sha1.c:79-131 | The key material grows by the chunk, across the switch from storing it to hashing it |
| `Hmac.Context.EndKey` | libxenon/drivers/crypt/hmac_sha1.c:133-159 | Both pads hold the key of section 2 of RFC 2104, hashed first if longer than a block |
| `Hmac.Context.StartMessage` | libxenon/drivers/crypt/hmac_sha1.c:161-164 | Starts an empty message, again after a finished one |
| `Hmac.Context.UpdateMessage` | libxenon/drivers/crypt/hmac_sha1.c:166-168 | Appends the data to the message |
| `Hmac.Context.EndMessage` | libxenon/drivers/crypt/hmac_sha1.c:170-179 | Returns the HMAC-SHA1 of RFC 2104 for the whole key and message; the key can be used again |
| `Hmac.Rfc2104` | libxenon/drivers/crypt/hmac_sha1.c:71-179 | The code computed is that of section 2 of RFC 2104 with 0x36 for the inner and 0x5c for the outer pad |
| `Iso9660.CacheHit` | libxenon/drivers/iso9660/iso9660.c:112-138 | When the cache test succeeds, the buffer holds the wanted bytes and they lie inside it |
| `Iso9660.Mount.ReadSome` | libxenon/drivers/iso9660/iso9660.c:112-138 | Cached or not, delivers a non-empty prefix of the wanted disc bytes; a failed drive read gives -1, an emptied cache and an untouched destination |
| `Iso9660.Mount.ReadAll` | libxenon/drivers/iso9660/iso9660.c:140-155 | Delivers all the wanted disc bytes, or -1 if and only if one of the drive reads it made failed |
| `Iso9660.File.Read` | libxenon/drivers/iso9660/iso9660.c:492-530 | Delivers the file's bytes from the offset on, clipped at its end, and advances by as many; fails if and only if a drive read failed, and then the offset stays |
| `Iso9660.File.Seek` | libxenon/drivers/iso9660/iso9660.c:532-572 | Moves exactly to targets from 0 to the size and refuses all others without effect: EOVERFLOW exactly when the sum leaves 64 bits, EBADF for a closed file, EINVAL otherwise |
| `Tiles.PixelOfBase` | libxenon/drivers/console/console.c:58-66 | The pixel can be read back from its framebuffer address |
| `Tiles.BaseOfPixel` | libxenon/drivers/console/console.c:58-66 | Every framebuffer word is the address of a pixel on the screen; with the row above, a bijection |
| `Tiles.BaseInRange` | libxenon/drivers/console/console.c:58-66 | Pixels on the screen have addresses inside the framebuffer |
| `Tiles.BaseInjective` | libxenon/drivers/console/console.c:58-66 | Different pixels have different addresses |
| `Tiles.BaseDown` | libxenon/drivers/console/console.c:95-112 | A pixel 32 rows further down is one band of tiles further on |
| `Tiles.BaseFields` | libxenon/drivers/console/console.c:58-66 | The address field by field, as bits of the pixel's coordinates: it fixes the formula |
| `Console.LayoutOk` | libxenon/drivers/console/console.c:164-179 | For every mode, with or without overscan, all glyph cells are on the screen, given at least one column and two rows |
| `Console.HighDefinition` | libxenon/drivers/console/console.c:164-179 | The layout of 1280 by 720 pixels in numbers, with and without overscan |
| `Console.RowsNeeded` | libxenon/drivers/console/console.c:114-131 | From the first row and every row on the screen a new line keeps the cursor on the screen if and only if there are at least two rows; with fewer it goes to row -1 |
| `Console.LowModes` | libxenon/drivers/console/console.c:164-179 | Modes 15 and 16 pixels high have no and one text row, and there the first new line takes the cursor to row -1 |
| `Console.LineShown` | libxenon/drivers/console/console.c:133-154 | A text that fits into its line shows each character's glyph in its own cell and leaves all other pixels alone |
| `Console.ControlCodes` | libxenon/drivers/console/console.c:114-147 | Code 10 starts the next row, and on the last one moves the picture up by 32 pixel rows and the cursor by one; code 13 starts the row again; neither draws |
| `Console.RowsShown` | libxenon/drivers/console/console.c:133-154 | Lines with line feeds between them show row by row, each glyph in its cell, and all other pixels stay |
| `Console.Screen.constructor` | libxenon/drivers/console/console.c:164-179 | Starts with a blank screen and the cursor at the top left |
| `Console.Screen.Pset` | libxenon/drivers/console/console.c:58-66 | Changes one pixel of the grid |
| `Console.Screen.DrawChar` | libxenon/drivers/console/console.c:74-81 | The cell shows the glyph and no other pixel changes |
| `Console.Screen.Clear` | libxenon/drivers/console/console.c:83-93 | Every pixel is background |
| `Console.Screen.Scroll` | libxenon/drivers/console/console.c:95-112 | Copying bands of tiles moves the plain pixel grid up by 32 rows and blanks the last 32 |
| `Console.Screen.Newline` | libxenon/drivers/console/console.c:114-131 | The cursor is at the start of a blank row inside the text area and everything below is blank |
| `Console.Screen.Putch` | libxenon/drivers/console/console.c:133-147 | The framebuffer follows a terminal on a plain grid; the cursor stays in the text area and everything below its row stays blank |
| `Console.Screen.Write` | libxenon/drivers/console/console.c:149-154 | After any text the framebuffer shows what the terminal on a plain grid shows |

## Left out

Findings about the source; the model follows the code, and the members named give the
inputs and the exact conditions:

- FdtAddNode.AddSubnode: parent offset -1 is not rejected before the insertion; if the node fits, the call fails with the tree lost (`FdtAddNode.StructureLost`).
- FdtReserve.DelMemRsv: negative entry numbers are not rejected (`FdtReserve.HeaderLost`, `FdtReserve.FirstLost`).
- FdtPath.GetPath: for offsets at or past the end of the root the search for the previous slash reads in front of the buffer (`FdtPath.EndTagPast`); nothing is written, and if the search ends the result is BADOFFSET.
- HeapMem.KMem.Kmalloc: sums are computed modulo 2^32, so a node can pass that has no room for the block (`Heap.WrapExample`) or for the header split off behind it (`Heap.HeaderExample`, `HeapMem.HeapLost`). That the heap is lost then is stated for pools that end at least 32 bytes below the top of the address space.
- HeapMem.AllocThenFree: the data field of the freed node keeps the aligned address, as in the source.
- Console.RowsNeeded: with fewer than two text rows the first new line takes the cursor off the screen.
- Sched.Scheduler.ReapPass: freeing the first thread of a ring ends the source's pass before the other threads were looked at.
- ShaContext.Context.Update: whole blocks in the caller's buffer are overwritten; only zero blocks survive (`ShaContext.SecondBlockLost`, `ShaSchedule.OnlyZeros`).
- FdtWriter.GrabSpace: after a creation in 40 to 47 bytes the space left is negative and compared without its sign, so structure space is granted outside of the buffer (`FdtWriter.GrantedOutside`).
- FdtWriter.FindAddName: the test for room is unsigned, so a new property name that would start below the buffer passes it (`FdtRoundTrip.LongName`; `FdtRoundTrip.WriteBlob` has the exact condition).
- Ohci.Controller.Xfer: the head pointer is loaded, its halt bit cleared and stored again while the controller may move it on; a step in between is undone (`OhciHw.LostUpdate`, at `OhciHw.OneByteInv`). It cannot happen exactly while the endpoint is halted or its queue is empty (`OhciHw.HeadStable`).
- Ohci.Controller.Intr: bit 0 of the done head, which the controller sets when another interrupt is pending, is not masked; set, it makes the first address that of no descriptor.

Contracts that leave something out:

- HeapRuns.Client.Run: ends before a request that finds a node it does not suit, after which the pool may be no heap (`HeapMem.KMem.Kmalloc`).
- HeapMem.KMem.Kfree: pointers inside the pool must be live, because the source reads the word before the pointer as a node address.
- FdtPath.GetPath: node names that contain a slash are excluded, and so are blobs whose structure starts with a NOP.
- FdtPathLookup.PathOffset: alias paths (those that do not start with a slash) are not modelled.
- FdtWriter.AddReservemapEntry: an entry added after a property call that found no space can overwrite that property's name; the contract then promises nothing of the bytes. In the documented order of calls it does not arise.
- FdtWriter.WriteProperty: after a store outside of the buffer nothing is promised; names are at least 8 and values 16 bytes short of 2^31, because the source computes their sizes as `int`.
- FdtRoundTrip.WriteTree: starts from a draft that fits its buffer, as every draft with a reserve entry does.
- FdtEdit.SetProp: values are at least 16 bytes short of 2^31, as for the writer; so in FdtEdit.AddProperty and FdtEdit.ResizeProperty.
- FdtReserve.DelMemRsv: the blob ends below the top of the address space.
- FdtOpen.OpenInto: overlapping source and destination buffers are not modelled.
- Ohci.Controller.Xfer: needs enough free descriptors and non-negative lengths; the source does not handle an empty pool.
- Ohci.Controller.Intr: other interrupt sources than the write-back are left out.
- Sched.Scheduler.constructor: the main thread of processor 0 comes as a first creation and a change of its priorities; the pool starts with the idle threads only.
- Sched.Scheduler.Create: taking the slot and linking it in are one step.
- Sched.Scheduler.SetProcessor: a thread that is already waiting to be taken over is not moved again, and idle threads are never moved, suspended or terminated.
- Hmac.Context.UpdateKey: chunks of less than 2^32 - 64 bytes, as for SHA-1 updates.
- Iso9660.Mount.ReadAll: less than 2^31 bytes, because the source counts them in an `int`; so in Iso9660.File.Read.
- Iso9660.File.Seek: `off_t` is taken as 64 bits wide.
- Console.Screen.constructor: modes with fewer than two text rows are excluded, because the first new line would leave the screen (`Console.LowModes`), and modes without a column, because a glyph is drawn before the width is looked at.
- Console.Screen.Putch: with fewer than two rows the source moves the cursor above the screen (`Console.RowsNeeded`), so two rows are required; font and colours are parameters and shifts and masks of addresses are quotients and remainders.
- FdtWalk.NextNode: an offset inside a token that happens to read as a node is accepted by the source (`FdtWalk.CheckNodeOffset` says so) and walked from; the lookups and edits take offsets of tokens, of the end, or that are not aligned, negative or out of range.

Not modelled:

- `libfdt`: `fdt_move`, in-place property writes, searches by phandle, compatible string or property value, and error strings.
- OHCI: the lists of endpoint descriptors, register programming, the root hub, page-crossing limits of a descriptor, and the rest of the USB stack.
- Scheduler: the list of all threads, deferred procedure calls, saved contexts, interrupt levels, mutexes and condition variables; locked sections are atomic.
- DES: the S-box tables and the derivation of subkeys from a key; the inverse properties hold for any.
- HMAC: the wiping at the end and the one-call form, which only call the modelled functions.
- ISO 9660: mounting, directories and path names.
- Console: cache flushes and the registration of the output hook.
- ATA and PCI access, the network stack and its drivers, RC4, the GDB stub and breakpoints, the ELF loader, input devices, exception dumps, and newlib's dispatch to devices.
