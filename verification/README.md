# Models and proofs for sphere_prac

This project models the concurrent and memory-managing parts of `sphere_prac` in Dafny and proves what they are for:
the compacting handle allocator (`p1`), the shared cache table with its semaphores (`p5`), the shell's reader and
executor (`p4`), the HTTP request parser and printer (`http_server`), the line framer of the chat server (`p2`) and the
parallel merge sort (`p7`). `dafny verify dfyconfig.toml` checks everything.

The model follows the code branch by branch. Where the code breaks a promise, the code stays as it is, a lemma names
the condition under which the promise holds, in both directions, and short concrete runs show it failing.

## The allocator

Three layers, each proved to be a correct picture of the one below:

* `Allocator.dfy`: a class over an `array<byte>`. Addresses are indices, words are eight bytes, least significant first,
  and every method does the loads and stores of the C++ code: header words, chain links, block headers, slots, `memcpy`
  and an overlapping `memmove`. Its ghost field `heap` is the typed state that memory holds (`HeapImage.Holds`, and the
  headers a compaction left behind); every method's contract equates the new `heap` with a function of the old one and
  says that no byte outside the arena changes.
* `HeapModel.dfy`: the typed heap with its chain of blocks, its slot table and its three header words, and each
  operation as a function on it. A compaction that meets no live block leaves an arena without blocks whose chain of
  freed headers stays in memory; the typed heap keeps it as `dead`, because the next compaction may walk it again.
  `HeapModel.Safe` is the heap invariant: the chain ascends without overlap from the header, stays below the slot table
  and leads to `begin_ref` or above at its end; live blocks and non-null slots are in bijection through `reference`.
* `HeapRuns.dfy`: a plain map from handles to byte strings. `HeapModel.Store` reads it off a safe heap.

`HeapFit.dfy` says, by addresses alone, when alloc succeeds in any safe heap and where it puts block and slot, and when realloc
leaves a block where it stands. `HeapRuns.RunSound` is safety and refinement for all runs of alloc, realloc, free, defrag and byte writes through a
handle. `HeapCompact.DefragExact` and `HeapCount.FitsAfterDefrag` are about compaction: handles, bytes and order are
kept, live blocks are packed, and afterwards no free byte is lost to fragmentation; `FitsAfterDefrag` holds for a
counter that has drifted, too.

The code does not keep the invariant in every case. The exact conditions, and the runs that break them:

| operation | it keeps the invariant exactly when | broken by |
|---|---|---|
| constructor | the arena holds the three header words; it tests for one word only (`allocator.cpp:10`) | any size from 8 to 23 |
| alloc | N is not 0, the first block leaves room for its slot (`:51-65`), and a new slot does not reach into a block that stays in the chain, freed or grown in place | `HeapWitness.FirstBlockCoversItsSlot`, `HeapWitness.SlotInsideGrownBlock` |
| realloc in place | N is not 0 and the block does not grow over the header of a freed block to which its `next` still leads (`:111-112`) | `HeapWitness.ResizeSwallowsFreedHeader` |
| defrag | the counter does not stand at the bare header while something is live; if the counter does not stand there, the last link of the chain in memory leads to `begin_ref` or above; the lowest used slot does not receive an address whose low byte is 0, the only byte `:165` tests; the last link does not fall below the raised table (`:78-80` with `:164-166`) | `HeapWitness.DefragForgetsLiveBlock`, `HeapWitness.SecondDefragLeavesChain`, `HeapWitness.DefragTrimsUsedSlot`, `HeapWitness.DefragOutrunsLastLink` |
| defrag, the first block moved | the first block of the chain is live, nothing is, or the counter stands at the bare header; otherwise `:158` stores through `prev` before it has a value (`HeapCompact.UnsetPrevExactly`) | `HeapWitness.FreedFirstBlock` |

The second condition of defrag is about a second defrag of an arena that has been emptied with a counter that drifted: the
first one resets `data_end` and empties the table, but the chain stays in memory with its links. If its last link leads
below the end of the arena, the walk takes the old slot table, or what lies behind the arena, for a block header.
`HeapCompact.WalkStaysExactly` says exactly when the walk reads nothing but headers of its chain, and
`HeapCompact.DefragAgain` when a second defrag does; with an exact counter it always does (`HeapCount.DefragCounted`).

Choices: where `:158` stores through the unset `prev`, the model writes no link. Fresh payload bytes are whatever the
memory held, so operations take them as an argument named `junk`. Sizes are such that N plus a block header does not
wrap; the subtractions of the code do wrap, and the model computes them modulo 2^64. A handle is null or the address of
a slot, and one `Pointer` owns one slot.

## The cache

`CacheTable.dfy` has `get`, `set` and a collector visit as functions of a table of records; `CacheBytes.dfy` has the
class over the flat byte buffer, with `strncmp` on padded keys, and proves that it computes them. `CacheRuns.dfy` lets
any number of workers take single probe steps of `get` and `set`, interleaved with collector steps in any order;
`CacheLatest.dfy` and `CacheExpiry.dfy` are about whole runs of it, and `CacheCalls.dfy` shows that a worker left alone does what
the whole operation does, which record `set` writes, and how long that lasts. Records are not unique per key: `set`
may reuse a tombstone in front of an older copy, and the theorems hold in spite of it.

The documentation (`p5/info.txt:14`) asks that a cell is never written twice at once, nor read while it is written. But
`get` and `set` lock the number of the probe (`HashTable.cpp:147`, `:178`) and the collector locks the number of the
record (`:75`). `CacheLocks.dfy` puts keys, hashes, probes and records together with the semaphores:

* Two probes that lead to one record exclude each other if and only if the hashes of their keys agree modulo the number
  of records (`ProbesExclude`); a probe and the collector do if and only if the hash is a multiple of it
  (`SweepExcludes`). Both speak about all reachable states of the semaphores.
* A probe or visit is taken apart into locking, reading, beginning and ending to write, and releasing; a record that is
  being replaced may be read as anything, and what two writers leave behind may be anything.
* `CacheRaces.CollideExactly` is about the runs of that machine: give every key the offset `hash % n` and the collector
  the offset 0; a set or the collector is at a record together with some other process, one replacing it and the other
  replacing it or about to read it, in some run from a table without holes, if and only if the offsets of the two
  differ. Equal offsets keep the two apart in every run, whatever other keys are in use (`CacheLocks.Apart`). For sets
  of different offsets `CacheRaces.SetIsLost` goes on until one of two completed sets has disappeared.
* Where all offsets agree, the run is a run of the atomic steps of `CacheRuns.dfy` (`CacheLocks.RunIsAtomic`). For such runs
  of the machine with locks `CacheLocked.dfy` states what `CacheRuns.dfy`, `CacheLatest.dfy` and `CacheExpiry.dfy` prove:
  no holes, the latest write wins, every answer was set within its life time.

## The shell

`ShellSplitter.dfy` and `ShellTokenizer.dfy` read a line, `ShellQuotes.dfy`, `ShellJoining.dfy`, `ShellWords.dfy` and
`ShellPrinting.dfy` prove what reading means, `ShellEnding.dfy` when it ends, `ShellLexing.dfy` which words it yields,
`ShellFiles.dfy` where they go, `ShellSigns.dfy` what a single & does,
`ShellExecutor.dfy` is the executor with descriptors as fresh numbers and exit codes as an arbitrary function, and
`ShellLines.dfy` puts them together.

At a quote without a partner the token loop takes the rest of the text, indexes the text at npos (`Call.cpp:71`, `:75`)
and starts over from the beginning (`:46`); the model does the same, with the character read there as an argument named
`stray`, and answers None only where the loop gets to such a quote a second time, for then it does for ever. So every
line whose quotes close is read to its end (`ShellEnding.ParseEnds`). On the way the text may be indexed out of range:
exactly when the quotes behind the command do not close (`ShellEnding.OutsideExactly`), as on `ab'c d'`
(`ShellLines.QuoteInsideCommand`).

Code and description (`p4/info.txt`) differ in three more ways. Arguments are separated by blanks only, not by other white
space; for texts whose quotes close `ShellLexing.WhiteSpaceExactly` says when that makes a difference, and `ShellLexing.BlanksSeparate` that it makes
none where no other white space stands outside quotes. Text directly in front of a quote is lost;
`ShellLexing.GluedTextExactly` says exactly when nothing is. A background sign behind a pipe leaves a process that nobody
waits for (`ShellLines.PipeIntoNothing`).

## HTTP requests, framing, sorting

`HttpRequest.dfy`, `HttpPrinting.dfy` and `HttpReading.dfy`: the start line, headers and body of section 3 of RFC 7230 with bare line feeds.
The parameter loop does not end on some bodies; the model answers None there, and the condition is exact. In the code a
header line without a colon stops the parser but leaves the request type alone (`Request.cpp:110` compares instead of
assigning), and a wrong version does not stop it (`:96` is overwritten by `:98`); the model does the same.
`ChatFraming.dfy` is the client's buffer. `MergeSort.dfy` is the recursive sort on a range of positions, and
`MergeThreads.dfy` the same sort with its threads: every call, on every level, runs its halves at the same time, and steps
of all threads follow each other in any order.

## Model

| member | source | states |
|---|---|---|
| HeapRuns.RunSound | sphere_prac/p1/allocator.cpp:39-167 | over every run of good calls the heap stays safe, every answer is one a map of handles allows, and the payloads are those of the map |
| HeapRuns.StepSound | sphere_prac/p1/allocator.cpp:39-167 | one good call keeps the invariant and changes the map of handles as that call should; no byte behind another handle changes, and a throw changes nothing |
| HeapRuns.UntouchedInRun | sphere_prac/p1/allocator.cpp:39-167 | a handle that no call of a run names keeps its slot and every payload byte, whatever is moved or compacted around it |
| HeapRuns.RunCounted | sphere_prac/p1/allocator.cpp:57-135 | over runs of alloc, free, defrag, writes and moving realloc, the counter is the header plus size and block header of every live block |
| HeapRuns.FreshExact | sphere_prac/p1/allocator.cpp:7-16 | the constructor refuses exactly the sizes below one word, and yields a safe arena exactly when the header fits |
| HeapAlloc.AllocSound | sphere_prac/p1/allocator.cpp:39-98 | a good alloc adds exactly one new handle and keeps all others |
| HeapAlloc.AllocExact | sphere_prac/p1/allocator.cpp:51-93 | a successful alloc keeps the invariant if and only if the size is not 0 and the slot has room |
| HeapFit.SlotTaken | sphere_prac/p1/allocator.cpp:31-37 | the slot taken is the highest null one of the table, or the word below it if and only if none is null |
| HeapFit.AllocSucceeds | sphere_prac/p1/allocator.cpp:39-97 | in every safe heap alloc succeeds if and only if the counter leaves payload and header, data_end lies below the slot, and the arena has no blocks or, behind its first block, freed or not, or behind some live one, that much room is left below the next live block, the table and the slot; otherwise it throws NoMemory |
| HeapFit.AllocPlaces | sphere_prac/p1/allocator.cpp:51-93 | the new block stands at the bottom of an arena without blocks, otherwise right behind the first block that has the room, and every header word and slot is as the source leaves it |
| HeapFit.ReallocPlaces | sphere_prac/p1/allocator.cpp:100-127 | realloc leaves a block where it stands if and only if header and payload end below the next live block and the table; otherwise it succeeds exactly when alloc does and redirects the slot |
| HeapRealloc.FreeSound | sphere_prac/p1/allocator.cpp:129-139 | free removes exactly its handle, and throws exactly on a null one |
| HeapRealloc.ResizeExact | sphere_prac/p1/allocator.cpp:106-112 | resizing in place keeps the invariant if and only if it swallows no freed header, and then keeps the common prefix |
| HeapRealloc.ReallocSound | sphere_prac/p1/allocator.cpp:100-127 | realloc keeps the slot and, byte by byte, the first min(old, new) bytes, resized or moved, and all other handles |
| HeapDefrag.SlideSound | sphere_prac/p1/allocator.cpp:153-163 | one round of the walk keeps chain, bijection, order and bytes, and lengthens the packed prefix by one live block |
| HeapDefrag.WalkSound | sphere_prac/p1/allocator.cpp:149-163 | the whole walk packs all live blocks in order and leaves every handle its slot and bytes |
| HeapCompact.TrimExact | sphere_prac/p1/allocator.cpp:164-166 | the trimming loop stops at the lowest used slot if and only if the low byte of that slot is not 0 |
| HeapCompact.DefragSound | sphere_prac/p1/allocator.cpp:141-167 | defrag keeps handles, bytes and order, packs the live blocks from the header to data_end, and gives back every unused slot below the lowest used one |
| HeapCompact.WalkStaysExactly | sphere_prac/p1/allocator.cpp:149-163 | following the links of the chain in memory, defrag reads nothing but headers of that chain if and only if the counter lets it return at once or the last link leads to begin_ref or above |
| HeapCompact.DefragExact | sphere_prac/p1/allocator.cpp:141-167 | defrag reads only its chain and keeps invariant and payloads if and only if the four conditions of the table hold |
| HeapCompact.DefragAgain | sphere_prac/p1/allocator.cpp:141-167 | behind a good defrag without live blocks a further one is good if and only if the counter stands at the bare header or the last link leads to the end of the arena or above, and then changes nothing |
| HeapCompact.UnsetPrevExactly | sphere_prac/p1/allocator.cpp:150-158 | defrag stores through the unset prev if and only if the counter lets it walk, the first block of the chain is free and another block is live |
| HeapCount.AllocCounted | sphere_prac/p1/allocator.cpp:57-86 | alloc keeps the counter exact |
| HeapCount.FreeCounted | sphere_prac/p1/allocator.cpp:135 | free keeps the counter exact and never takes it below the header |
| HeapCount.ReallocCounted | sphere_prac/p1/allocator.cpp:100-127 | realloc keeps the counter exact if and only if it moves or keeps the size |
| HeapCount.DefragCounted | sphere_prac/p1/allocator.cpp:141-167 | defrag keeps the counter exact, and with an exact counter never takes a used arena for an empty one and never leaves its chain |
| HeapCount.FitsAfterDefrag | sphere_prac/p1/allocator.cpp:39-98 | right after defrag, whatever the counter, alloc succeeds if and only if the one free region holds payload, header and, if needed, one slot, and the counter leaves as much; then alloc keeps the invariant |
| HeapCount.CountedFits | sphere_prac/p1/allocator.cpp:39-98 | with an exact counter the one free region alone decides |
| HeapWitness.FirstBlockCoversItsSlot | sphere_prac/p1/allocator.cpp:51-65 | a first allocation whose slot lies inside its own payload |
| HeapWitness.SlotInsideGrownBlock | sphere_prac/p1/allocator.cpp:69-93 | a reachable heap in which alloc takes its slot out of a block that grew in place |
| HeapWitness.ResizeSwallowsFreedHeader | sphere_prac/p1/allocator.cpp:108-112 | a reachable heap in which resizing in place breaks the chain |
| HeapWitness.DefragTrimsUsedSlot | sphere_prac/p1/allocator.cpp:164-166 | an arena in which defrag drops the slot of a live block |
| HeapWitness.DefragForgetsLiveBlock | sphere_prac/p1/allocator.cpp:111-147 | a run after which the counter has drifted and defrag loses a live block |
| HeapWitness.DefragOutrunsLastLink | sphere_prac/p1/allocator.cpp:78-80 | a run after which defrag raises begin_ref above the last link |
| HeapWitness.SecondDefragHarmless | sphere_prac/p1/allocator.cpp:141-167 | a reachable arena, emptied with a counter that drifted, in which a second defrag walks the old chain and changes nothing |
| HeapWitness.SecondDefragLeavesChain | sphere_prac/p1/allocator.cpp:149-163 | one in which it takes the old bottom of the slot table for a block header |
| HeapWitness.FreedFirstBlock | sphere_prac/p1/allocator.cpp:150-158 | a run after which defrag stores through the unset prev |
| HeapStores.FirstHolds | sphere_prac/p1/allocator.cpp:52-62 | the stores of a first allocation turn memory that holds a heap into memory that holds the next one |
| HeapStores.BehindHolds | sphere_prac/p1/allocator.cpp:75-90 | so do the stores of an allocation behind a block |
| HeapStores.MoveHolds | sphere_prac/p1/allocator.cpp:114-125 | so do the stores of a moving realloc |
| HeapStores.MoveDownHolds | sphere_prac/p1/allocator.cpp:155-156 | so does the memmove of a round, overlapping or not |
| HeapStores.RoundHolds | sphere_prac/p1/allocator.cpp:154-160 | so do all stores of a round of defrag |
| Allocators.Allocator.GetNext | sphere_prac/p1/allocator.cpp:22-29 | the loop over links returns the next live block or begin_ref |
| Allocators.Allocator.GetAvailableRefSpace | sphere_prac/p1/allocator.cpp:31-37 | the loop over the table returns its topmost null slot or the word below it |
| Allocators.Allocator.Create | sphere_prac/p1/allocator.cpp:7-16 | the constructor on bytes: refused below one word, otherwise three header words written |
| Allocators.Allocator.Alloc | sphere_prac/p1/allocator.cpp:39-98 | on bytes: memory holds the heap after alloc, nothing outside the arena changes, and a throw changes no byte at all |
| Allocators.Allocator.Realloc | sphere_prac/p1/allocator.cpp:100-127 | on bytes: memory holds the heap after realloc, the Pointer keeps its slot, and if the inner alloc throws no byte changes |
| Allocators.Allocator.Free | sphere_prac/p1/allocator.cpp:129-139 | on bytes: memory holds the heap after free and the Pointer is null |
| Allocators.Allocator.Defrag | sphere_prac/p1/allocator.cpp:141-167 | on bytes, as long as it reads only its chain: memory holds the heap after defrag and the chain left behind, good or not, and is valid after a good one |
| Allocators.Allocator.MoveBlock | sphere_prac/p1/allocator.cpp:155 | memmove towards lower addresses arrives whole although source and destination overlap |
| Allocators.Allocator.Get | sphere_prac/p1/allocator.h:78-82 | reads through the slot: null for a null handle, else the payload address |
| Allocators.Allocator.WriteThrough | sphere_prac/p1/allocator.h:78-82 | a byte stored through a handle changes that payload byte and nothing else |
| CacheTable.ProbeBijection | sphere_prac/p5/main.cpp:64-66 | the linear probe visits each record exactly once |
| CacheTable.SetThenGet | sphere_prac/p5/HashTable.cpp:139-192 | get after a stored set finds its value, also with older copies of the key further along |
| CacheTable.SetKeepsOthers | sphere_prac/p5/HashTable.cpp:162-192 | a stored set makes no hole in a probe path and changes what get finds for no other key |
| CacheTable.FullExactly | sphere_prac/p5/HashTable.cpp:176-191 | set throws NO_FREE_SPACE if and only if every record is alive under another key |
| CacheCalls.GetExactly | sphere_prac/p5/HashTable.cpp:145-159 | get finds a value if and only if it is that of the first probed record that is free or alive under the key |
| CacheCalls.SetExactly | sphere_prac/p5/HashTable.cpp:176-191 | set writes key, value and life time into the first probed record that is not alive under another key, changes nothing else, and is refused if and only if there is none |
| CacheCalls.VisitedRecord | sphere_prac/p5/HashTable.cpp:74-83 | any number of visits takes as many from the life time of an alive record, removes it when there are more, and leaves any other record as it is |
| CacheCalls.SetLasts | sphere_prac/p5/HashTable.cpp:72-192 | after a set get answers its value through as many visits of the record as its life time, whatever other records are visited, and one more removes it |
| CacheCalls.SetStepByStep | sphere_prac/p5/HashTable.cpp:162-192 | a worker that starts a set and takes its steps alone ends in the table of the whole set, with every worker as before |
| CacheCalls.GetStepByStep | sphere_prac/p5/HashTable.cpp:139-160 | a worker that starts a get and takes its steps alone answers what the whole get answers and leaves everything as it was |
| CacheRuns.SoundRun | sphere_prac/p5/HashTable.cpp:72-86 | in every interleaving of probe and collector steps no free record precedes an alive one in the probe order of its key |
| CacheRuns.EmptySound | sphere_prac/p5/main.cpp:55-66 | the runs may start from a table of free records with idle workers |
| CacheRuns.StepKeepsOthers | sphere_prac/p5/HashTable.cpp:176-190 | no single step of a get or set changes what get finds for another key |
| CacheLatest.LatestWriteWins | sphere_prac/p5/HashTable.cpp:139-192 | in every interleaving, after a set and at most TTL collector visits of its record, get finds its value, and a get on its way to the record answers it |
| CacheExpiry.Provenance | sphere_prac/p5/HashTable.cpp:40-86 | in every run from a table without alive records, an alive record was written by some set, with as many visits since as its life time has lost |
| CacheExpiry.ReplyProvenance | sphere_prac/p5/HashTable.cpp:139-160 | every value a get answers was written for that key by some set whose record was visited at most TTL times since |
| CacheExpiry.Decay | sphere_prac/p5/HashTable.cpp:72-86 | without sets a record is alive if and only if it was visited at most TTL times |
| CacheExpiry.RunsDry | sphere_prac/p5/HashTable.cpp:72-86 | longest TTL plus one visits of every record leave none alive |
| CacheBytes.PadMatches | sphere_prac/p5/HashTable.cpp:150 | strncmp on a padded key field says equal if and only if the keys are equal |
| CacheBytes.Replaced | sphere_prac/p5/HashTable.cpp:40-57 | writing one entry replaces that record of the table and no other |
| CacheBytes.HashTable.Create | sphere_prac/p5/HashTable.cpp:104-106 | refused if and only if the buffer is too small; otherwise the table the buffer holds is taken over as it stands |
| CacheBytes.BlankHolds | sphere_prac/p5/main.cpp:55-59 | a new, zeroed buffer holds a table of free records |
| CacheBytes.HashTable.GetEntry | sphere_prac/p5/HashTable.cpp:11-25 | reads the fields of a record; its place test never fails for a record number |
| CacheBytes.HashTable.SetEntry | sphere_prac/p5/HashTable.cpp:40-57 | writes key and value if given, padded with zeros, then life time and status |
| CacheBytes.HashTable.Get | sphere_prac/p5/HashTable.cpp:139-160 | the loop over bytes answers what get of the table answers, padded, with the same errors |
| CacheBytes.HashTable.Set | sphere_prac/p5/HashTable.cpp:162-192 | the loop over bytes leaves memory that holds the table after set; a throw changes nothing |
| CacheBytes.HashTable.Pass | sphere_prac/p5/HashTable.cpp:74-83 | one collector pass visits every record once |
| Semaphores.RangeAtomic | sphere_prac/p5/Semaphore.cpp:6-14 | a range update goes through if and only if every semaphore of the range stays non-negative, and then changes exactly the range |
| Semaphores.Semaphore.Update | sphere_prac/p5/Semaphore.cpp:6-14 | the loop fills the vector for one atomic semop |
| Semaphores.Semaphore.constructor | sphere_prac/p5/Semaphore.cpp:16-27 | a new set is released in full |
| Semaphores.Semaphore.FullLock | sphere_prac/p5/Semaphore.cpp:50-52 | a full lock takes max_value units of every semaphore of its range or none |
| Semaphores.UnitsConserved | sphere_prac/p5/Semaphore.cpp:46-64 | in every reachable state free units plus readers plus max_value times writers is max_value, for each semaphore |
| Semaphores.FullLockExcludes | sphere_prac/p5/Semaphore.cpp:46-64 | a full lock holder holds it once and excludes every reader and writer |
| CacheLocks.ExclusionIsPerNumber | sphere_prac/p5/Semaphore.cpp:46-64 | over all reachable states, one process can hold a number in full and another one a number, in full or shared, if and only if the numbers differ |
| CacheLocks.ProbesExclude | sphere_prac/p5/HashTable.cpp:145-190 | a set and another set or get at one record exclude each other if and only if the hashes of their keys agree modulo the number of records |
| CacheLocks.SweepExcludes | sphere_prac/p5/HashTable.cpp:74-82 | the collector and a set or get at one record exclude each other if and only if the hash of the key is a multiple of the number of records |
| CacheLocks.NeverTogether | sphere_prac/p5/HashTable.cpp:72-192 | in every run of lock, read, write and release steps under that condition, nobody is at a record together with a set or the collector |
| CacheLocks.RunIsAtomic | sphere_prac/p5/HashTable.cpp:72-192 | every such run is a run of atomic probe and collector steps with the same table at its end |
| CacheLocks.LockedRunsHaveNoHoles | sphere_prac/p5/HashTable.cpp:72-192 | so in every such run no free record precedes an alive one in the probe order of its key |
| CacheLocked.LockedLatestWins | sphere_prac/p5/HashTable.cpp:72-192 | in every run of lock, read, write and release steps where all offsets agree: after a set and at most TTL visits of its record get finds its value, and a get that has not passed the record reads it or goes on |
| CacheLocked.LockedReply | sphere_prac/p5/HashTable.cpp:72-192 | in every such run what a get is about to answer was stored for its key by some set, in a record visited at most TTL times since |
| CacheLocks.Apart | sphere_prac/p5/HashTable.cpp:72-192 | in every run, whatever the keys, nobody is at a record together with a set or the collector of its own offset |
| CacheRaces.CollideExactly | sphere_prac/p5/HashTable.cpp:72-192 | a record is replaced by a set or the collector while another process replaces it or is about to read it, in some run, if and only if the offsets of the two differ |
| CacheRaces.SetIsLost | sphere_prac/p5/HashTable.cpp:176-189 | for any number of records and any two keys of different offsets: a run of two sets alone that both come to their end, after which get does not find the key of one |
| ShellTokenizer.MakeCall | sphere_prac/p4/Call.cpp:14-80 | the trimming and token loops compute the call of the text, starting over at a quote without a partner; None where they do not end |
| ShellSplitter.MakeInstruction | sphere_prac/p4/Instruction.cpp:96-179 | the splitting loop computes the linked calls, the background flag and the error flag of the line |
| ShellPrinting.ParsePrinted | sphere_prac/p4/Instruction.cpp:96-179 | splitting and tokenizing undo the printing of any linked list of canonical calls, with the background flag set exactly when & is printed behind it |
| ShellWords.TokenizePrinted | sphere_prac/p4/Call.cpp:14-80 | tokenizing undoes the printing of a call: command, plain or quoted arguments, redirections |
| ShellTokenizer.CommandExactly | sphere_prac/p4/Call.cpp:29-41 | the command is the quoted word at the start, or what stands in front of the first blank or sign; a text that starts with a quote without a partner is never read to its end |
| ShellJoining.CutsJoin | sphere_prac/p4/Instruction.cpp:104-178 | splitting undoes joining for all texts with operators only inside quotes, with or without & at the end; with it the line is a background line and nothing is left behind it |
| ShellJoining.StrayOperators | sphere_prac/p4/Instruction.cpp:155-159 | operators with nothing in front of them are passed over one character at a time, and the operator before the next call stays what it was |
| ShellSigns.CutsSigns | sphere_prac/p4/Instruction.cpp:104-173 | wherever the splitting loop stands: it refuses the line if and only if a single & outside quotes has more of the line behind it, and puts it into the background if and only if one ends it |
| ShellSigns.SignsExactly | sphere_prac/p4/Instruction.cpp:96-179 | so for whole lines: parse error and background flag, each by where a single & stands outside quotes |
| ShellSigns.NothingBeforeAnd | sphere_prac/p4/Instruction.cpp:110-121 | an && with nothing in front of it is no operator: a;&& b is refused, and && alone is a background line |
| ShellQuotes.PiecesAreBare | sphere_prac/p4/Instruction.cpp:106-172 | no call text of an accepted line ends inside quotes or holds an operator outside them |
| ShellJoining.ParsedIsLinked | sphere_prac/p4/Instruction.cpp:160-178 | the operators before and after the calls of a line agree |
| ShellEnding.CutsEnds | sphere_prac/p4/Instruction.cpp:104-173 | splitting ends on every line whose quotes close, and unless it refuses an operator only there |
| ShellEnding.CutsNeverEnd | sphere_prac/p4/Instruction.cpp:104-173 | where the model answers None, no number of rounds ends the splitting loop |
| ShellEnding.CutsSometimeEnd | sphere_prac/p4/Instruction.cpp:104-173 | where it answers something, some number of rounds does |
| ShellEnding.ParseEnds | sphere_prac/p4/Instruction.cpp:96-179 | every line whose quotes close is read to its end; any other if and only if an operator is refused and the quotes behind the command of what is left close |
| ShellEnding.TokenLoopEnds | sphere_prac/p4/Call.cpp:43-79 | the token loop ends if and only if the quotes behind its start close or, as it starts over, those of the whole text |
| ShellEnding.TokenLoopNeverEnds | sphere_prac/p4/Call.cpp:44-46 | where neither close, no number of rounds ends it |
| ShellEnding.TokenLoopSometimeEnds | sphere_prac/p4/Call.cpp:44-46 | where one of them does, some number of rounds ends it |
| ShellEnding.OutsideExactly | sphere_prac/p4/Call.cpp:49-75 | the loop indexes the text at npos if and only if the quotes behind its start do not close; where they do, what lies outside the text makes no difference |
| ShellEnding.TokenizeEnds | sphere_prac/p4/Call.cpp:14-80 | reading a call ends if and only if the quotes behind its command close or all its quotes do |
| ShellLines.QuoteInsideCommand | sphere_prac/p4/Call.cpp:29-79 | a text with closed quotes that is indexed out of range and read twice over, and what comes out |
| ShellLines.LineRuns | sphere_prac/p4/Instruction.cpp:33-94 | for every foreground line the calls started and the code are those of left-to-right evaluation |
| ShellLines.LineLeavesNothing | sphere_prac/p4/Instruction.cpp:16-31 | behind every foreground line every pipe end is closed once, every call waited for, nothing open |
| ShellLines.PrintedLineRuns | sphere_prac/p4/Instruction.cpp:33-179 | a printed list of calls, with or without &, is read back and run as that list, left to right |
| ShellLines.PipeIntoNothing | sphere_prac/p4/Instruction.cpp:110-119 | a background line that ends in a pipe and leaves a call and a pipe behind |
| ShellLexing.LoopEnters | sphere_prac/p4/Call.cpp:43-79 | where quotes close, the loop enters exactly the words and signs of the text, in order |
| ShellLexing.CallEnters | sphere_prac/p4/Call.cpp:14-80 | where the quotes behind the command close, command, arguments and redirections of the call are those of these words and signs |
| ShellFiles.FilesExactly | sphere_prac/p4/Call.cpp:60-78 | where the quotes behind the command close: the file to read from is the last word that directly follows a <, the file to write to the last other word that a > was left for, and all other words are the arguments, in order |
| ShellLexing.WhiteSpaceExactly | sphere_prac/p4/Call.cpp:29-46 | where the quotes behind the command close, command, words and signs are those that white space would separate if and only if the command and what stands between two separators hold no other white space, except in front of text that a quote passes over |
| ShellLexing.BlanksSeparate | sphere_prac/p4/Call.cpp:44-46 | they are wherever no white space but blanks stands outside quotes, and only there if every quote opens directly behind a separator or closing quote |
| ShellLines.TabDoesNotSeparate | sphere_prac/p4/Call.cpp:29-46 | a tab is part of the command |
| ShellLines.LostTabSeparates | sphere_prac/p4/Call.cpp:48-58 | a tab between two quoted words does no harm |
| ShellLexing.GluedTextExactly | sphere_prac/p4/Call.cpp:46-58 | where quotes close, every character that is no blank or sign reaches a word, in order, if and only if each quote opens directly behind a separator, a closing quote or the start |
| ShellLines.GluedTextIsLost | sphere_prac/p4/Call.cpp:48-58 | text directly before a quote reaches no argument |
| ShellExecutor.ExecutesLeftToRight | sphere_prac/p4/Instruction.cpp:33-94 | the executor is the left fold with equal priority; a pipe always runs its right side and takes its code |
| ShellExecutor.StartsExactly | sphere_prac/p4/Instruction.cpp:51-83 | call n is started if and only if it is a first call, stands behind a pipe, behind && with the code so far 0, or behind two bars with any other code |
| ShellExecutor.NothingLeftExactly | sphere_prac/p4/Instruction.cpp:85-91 | fds and active are empty at the end if and only if the list does not end in a pipe |
| ShellExecutor.ClosesEveryPipeOnce | sphere_prac/p4/Instruction.cpp:16-31 | both ends of every pipe made are closed exactly once and every started call is waited for exactly once |
| ShellExecutor.ClosesBeforeWaiting | sphere_prac/p4/Instruction.cpp:85-91 | no call is waited for while an end of a pipe is open, and calls are waited for in the order of their starts |
| ShellExecutor.PipesConnectNeighbours | sphere_prac/p4/Instruction.cpp:41-49 | a call behind a pipe reads from the pipe its predecessor was given to write, through open descriptors, also when a piped call is skipped |
| ShellExecutor.Instruction.Execute | sphere_prac/p4/Instruction.cpp:33-94 | the loop over fields computes that execution |
| ShellExecutor.Instruction.CloseDescriptors | sphere_prac/p4/Instruction.cpp:16-22 | closes both ends of all open pipes and forgets them |
| ShellExecutor.Instruction.WaitActiveCalls | sphere_prac/p4/Instruction.cpp:24-31 | waits for all started calls and returns the code of the last |
| HttpPrinting.RoundTrip | sphere_prac/http_server/Request.cpp:63-202 | parsing a printed well-formed request gives it back with one more line end behind its body; it ends if and only if every & of the body has an = behind it |
| HttpPrinting.UrlRead | sphere_prac/http_server/Request.cpp:9-31 | address and parameters come back out of the printed url |
| HttpPrinting.HeadersRead | sphere_prac/http_server/Request.cpp:101-120 | headers come back out of the printed headers, in any order of the map and with their names in any letter case |
| HttpPrinting.AnyLetterCase | sphere_prac/http_server/Request.cpp:63-141 | a request printed with its header names in any letter case is read as the one printed in small letters |
| HttpReading.NamesHaveNoCapitals | sphere_prac/http_server/Request.cpp:114-118 | no header name read from any text holds a letter from A to Z |
| HttpReading.RefusedExactly | sphere_prac/http_server/Request.cpp:74-100 | a text is an error if and only if its method is not GET, POST or HEAD, or its start line is complete and the version does not begin with HTTP/; what such a request keeps |
| HttpReading.BrokenField | sphere_prac/http_server/Request.cpp:107-113 | a line without a colon ends the headers: those before it stay, there is no body, and the request is no error |
| HttpReading.EndsInHeaders | sphere_prac/http_server/Request.cpp:101-106 | a text that ends within its headers has no body |
| HttpReading.EndsInField | sphere_prac/http_server/Request.cpp:101-120 | a last header without a line end is still entered |
| HttpReading.FlagAlone | sphere_prac/http_server/Request.cpp:22-30 | a text with neither sign is one parameter that is its own value |
| HttpReading.FormRead | sphere_prac/http_server/Request.cpp:22-30 | a form sent as a body comes back, its last value with the line end that the body gains |
| HttpPrinting.BodyRead | sphere_prac/http_server/Request.cpp:121-128 | the body gains exactly one line end |
| HttpPrinting.BodyEnds | sphere_prac/http_server/Request.cpp:22-30 | reading a body as parameters ends if and only if every & has an = behind it |
| HttpPrinting.NeverEnds | sphere_prac/http_server/Request.cpp:22-30 | where the model answers None, no number of rounds ends the loop |
| HttpPrinting.SometimeEnds | sphere_prac/http_server/Request.cpp:22-30 | where it answers something, some number of rounds does |
| HttpPrinting.FlagParameter | sphere_prac/http_server/Request.cpp:22-30 | the body a=1&b keeps the loop going for ever |
| HttpRequest.MakeRequest | sphere_prac/http_server/Request.cpp:63-141 | the state machine computes the request of the text |
| HttpRequest.ParseParams | sphere_prac/http_server/Request.cpp:22-30 | the loop computes the parameters, None when it does not end |
| HttpRequest.PrintRequest | sphere_prac/http_server/Request.cpp:171-202 | the loops print the request |
| HttpPrinting.PrintedExample | sphere_prac/http_server/Request.cpp:171-202 | a request printed in full: ?, = and & between parameters, a colon and a blank in the headers, an empty line before the body |
| ChatFraming.FramingIsIndependent | sphere_prac/p2/chatsrv.cpp:37-57 | messages and leftover depend on the stream alone, not on its cuts, and concatenate to it |
| ChatFraming.SplitPartition | sphere_prac/p2/chatsrv.cpp:46-53 | splitting yields whole lines and a rest without a line end that concatenate to the text |
| ChatFraming.SplitUnique | sphere_prac/p2/chatsrv.cpp:46-53 | no other list of lines does |
| ChatFraming.AppendFindsFirst | sphere_prac/p2/chatsrv.cpp:37-40 | the search of append from eolpos + 1 is right if and only if eolpos is npos |
| ChatFraming.Client.Append | sphere_prac/p2/chatsrv.cpp:37-40 | append on the fields |
| ChatFraming.Client.FlushMsg | sphere_prac/p2/chatsrv.cpp:46-53 | takes the first line out of the buffer and finds the next |
| ChatFraming.Client.Receive | sphere_prac/p2/chatsrv.cpp:170-172 | one append and the drain loop deliver the lines of the buffer and keep the rest |
| ChatFraming.Client.Session | sphere_prac/p2/chatsrv.cpp:163-172 | so does a whole session |
| MergeSort.SortSound | sphere_prac/p7/main.cpp:18-33 | the result is ordered and keeps the order of equal keys |
| MergeSort.StableIsPermutation | sphere_prac/p7/main.cpp:18-33 | a stable rearrangement is a permutation |
| MergeSort.SortUnique | sphere_prac/p7/main.cpp:18-33 | there is only one ordered stable rearrangement |
| MergeSort.GetMiddle | sphere_prac/p7/main.cpp:8-16 | the two-step loop stops at the floor of half the length |
| MergeSort.SortIt | sphere_prac/p7/main.cpp:18-33 | sorts its range, touches nothing outside it, and ends |
| MergeThreads.StepGoal | sphere_prac/p7/main.cpp:24-32 | no step of any thread, on any level, changes what the range is going to be, and every step is progress |
| MergeThreads.EveryInterleavingSorts | sphere_prac/p7/main.cpp:18-39 | in every order of steps of all threads sorting ends within a bounded number of steps, never gets stuck, and leaves the ordered stable rearrangement |

## Left out

- Allocators.Allocator.Alloc: proved for calls that keep the invariant; after one that breaks it memory need not be a chain any more, so the typed model says that it breaks and nothing about the bytes.
- Allocators.Allocator.Realloc: the same, and the same about growing over a freed header.
- Allocators.Allocator.Defrag: not called where the walk leaves its chain (HeapCompact.WalkStaysExactly); what it then reads and writes is left out.
- HeapDefrag.SlideSound: where nothing is packed before the block that moves, the store through the unset prev is left out; HeapCompact.UnsetPrevExactly says when that is.
- HeapRuns.RunSound: for runs of such calls only; each condition can be checked before the call.
- HeapRuns.RunCounted: for runs without a resize in place to another size, after which the counter is wrong.
- CacheRuns.SoundRun: takes a probe or visit as one step; CacheLocks.RunIsAtomic says when the locks make it one, and CacheRaces.CollideExactly that they do not otherwise.
- CacheRuns.StepKeepsOthers: the same.
- CacheExpiry.Provenance: the same.
- CacheExpiry.ReplyProvenance: the same; CacheLocked.LockedReply is the form for the machine with locks.
- CacheLatest.LatestWriteWins: the same, and CacheLocked.LockedLatestWins is the form for the machine with locks; while the set is carried out and after it no other set of the same key is under way; which of two overlapping sets of one key wins depends on their steps.
- CacheBytes.HashTable.Get: takes no semaphore; the interleaving of probe steps is in CacheRuns.
- CacheBytes.HashTable.Set: takes no semaphore, likewise.
- CacheBytes.HashTable.Pass: takes no semaphore, likewise; the endless loop around the pass and its sleep are left out.
- CacheLocks.RunIsAtomic: a read or write of a record is one event that may be torn by a write under way; the bytes a torn read consists of are left out, it may yield any record. A process that has to wait for a semaphore takes no step.
- Semaphores.Semaphore.Update: does not wait; a semop that would block answers -1 and changes nothing, as it does with IPC_NOWAIT. SEM_UNDO and the upper limit of a semaphore value are left out.
- Semaphores.Semaphore.FullLock: does not wait, likewise.
- MergeSort.SortIt: sorts positions of an array, where the code moves the values of a list through iterators; the two halves are called one after the other; MergeThreads.EveryInterleavingSorts is about the threads.
- MergeThreads.EveryInterleavingSorts: a merge moves one element at a time to its place; std::inplace_merge is not part of this model, and what it does with a buffer is left out. Every team is taken to have two threads; with a team of one (p7/main.cpp:24-30) the right half is never sorted.
- ShellExecutor.Instruction.Execute: exit codes are given, descriptors are fresh numbers, and fork, exec, redirections, signals and the process that runs a line are left out.
- ShellEnding.CutsEnds: for a line the splitter refuses, it says nothing about the quotes behind the refused operator; ShellEnding.ParseEnds does.
- ShellLexing.WhiteSpaceExactly: for texts whose quotes behind the command close; of the others the token loop reads parts twice or never ends.
- ShellLexing.GluedTextExactly: the same.
- ShellTokenizer.MakeCall: what an index of npos reads is a given character; whether the process survives reading it is left out.
- HttpPrinting.RoundTrip: body parameters of the printed request are not part of the text; they are those the parser reads off the body.
- ChatFraming.Client.Append: a chunk is what the server appends, that is the received bytes up to the first NUL.
- Pointer alignment, sizes for which N plus a block header wraps around 2^64, and two Pointers for one slot.
- The arguments of memset in p5/main.cpp:59, which are swapped, and the mapping of the cache file.
- The sums std::hash(key) + k that wrap around 2^64.
- The cutter of long chat messages (p2/chatsrv.cpp:174-175), which repeats bytes once a message is longer than twice the buffer.
- Sockets, event loops, descriptor passing, files, Handler.cpp and Response.cpp, p3 and p6, the copies under sfera-mail-mt, and the unused get_entry(key) and find_place.
