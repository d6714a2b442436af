# Verified models of the POSIX-RTOS core

A Dafny 4.11 model of the parts of the system that carry the most state: the FatFs volume engine, the kernel
heap, the scheduler with its blocking primitives, the cJSON parser and printers, and the TCP request handling of
lwIP. Code that works in place is modelled by classes and loops with the fields of the source; what it computes is
stated against simple values (a flat disk, a byte string with a position, a list of blocks, a queue, a tree) and
proved for all inputs, all reachable states and all sequences of calls. `dafny verify dfyconfig.toml` checks
everything.

## Layout

| files | part of the system |
|---|---|
| `Basics` | machine numbers and small shared types |
| `FatWindow`, `FatCodec`, `FatTable` | the one-sector window with write-back and FAT mirroring; FAT12/16/32 entries; get_fat and put_fat |
| `FatChains`, `FatAlloc`, `FatFreeScan` | cluster chains as a set of disjoint lists; create_chain, remove_chain; f_getfree |
| `FatLinkMap`, `FatPattern` | the cluster link map for fast seek; the wildcard matcher |
| `FatLayout`, `FatData`, `SectorBytes`, `FatFile`, `FatRuns` | where a file lies on the device; f_read, f_write, f_lseek, f_truncate with the private sector buffer; runs of them |
| `HeapBlocks`, `KernelHeap` | first fit with splitting and coalescing; the same over the words of memory |
| `KernelLists`, `Bits`, `ReadyGroup`, `Scheduler`, `RoundRobin`, `SleepTimes` | intrusive circular lists; the priority bitmap; the scheduler; bounded waiting; when sleepers wake and slices end |
| `SemaphoreRuns`, `MutexRuns`, `KernelBlocking`, `KernelRuns`, `MessageQueue` | blocking primitives as atomic steps in any order; the same steps, and runs of them, on the scheduler; message queues |
| `JsonText`, `JsonGrammar`, `JsonParser`, `JsonRoundTrip` | trees and their printed text; what the parser computes; the parser; the round trip |
| `JsonLanguage`, `JsonNumbers`, `JsonUnicode`, `JsonEscapes`, `JsonLayout` | which texts are accepted; numbers; escapes and UTF-8; which strings fit their buffer; the layout of formatted texts |
| `JsonGrowth`, `JsonStrings`, `JsonPrinter`, `JsonBuffer`, `JsonMinify` | buffer growth; both printers; the minifier in place |
| `Netconn` | requests and callbacks of a TCP connection |

## How the parts fit together

* A volume is its *view*: the device with the dirty window laid over it. Window traffic never changes the view, so
  the FAT is a sequence of numbers computed from the view, and a file is the bytes of the sectors its chain leads
  to, with the dirty private buffer laid over them. Every call of a file is stated on these bytes and the position,
  and the entries and sectors of all other files stay what they were. Device calls may fail at any time and then
  leave anything in the sectors they were to transfer; a ghost counter of failures says when results may be wrong.
* The heap is a list of blocks in address order; the circular list of headers inside memory is proved to represent it
  after every call.
* The calls of an open file are also taken as runs, whose answers are those of a byte string with a position.
* Every thread is on exactly one circular list; what an operation does is moving a thread to the tail of a list. The
  atomic sections of semaphores and mutexes are methods on that scheduler, and any sequence of calls on the kernel is
  proved to be a run of the transition systems in which the theorems about whole runs are stated.
* A JSON text is what stands before its terminator. The parser is proved equal to a grammar, both printers to one
  printing function, the minifier to a scanning function. The theorems relate these functions to each other and to what
  RFC 8259 and RFC 3629 say of texts, numbers and code points.

## What the proofs found

* f_getfree stores and returns a partial count when the scan ends in an error, and counts reserved entries 0 and 1
  of FAT16 and FAT32: `FatFreeScan.CutScan` gives the exact condition for every type, `FatFreeScan.FullScan` that of
  a complete scan, and `FullScanFails`, `CutScanFails` volumes on which the count is wrong.
* The link map cannot be built for a chain whose end mark is the number after its last cluster
  (`FatLinkMap.CreateLinkMap`, `FatLinkMap.EdgeExample`).
* A request for more than 2^32 - 4 bytes wraps to size 0 and malloc hands out a block without payload
  (`KernelHeap.PayloadEnough`, `KernelHeap.WrappedRequest`).
* heap_mem_init compares unsigned: a region that passes becomes a proper heap exactly when its aligned end lies behind
  its aligned begin or is 0, at the top of memory (`KernelHeap.Heap.Init`, `KernelHeap.BackwardRegion`,
  `KernelHeap.TopRegion`).
* sem_init ignores the initial value its documentation promises: the value starts at 0 and the argument bounds it
  (`KernelBlocking.Semaphore.Init`).
* A thread that has used its 128 rounds can be the only one woken, and then the waiters behind it are left on a free
  mutex (`MutexRuns.ServedUnless`, `MutexRuns.Stranded`).
* mq_open computes sizes in 32 bits: a message queue has the capacity it was opened for exactly when header and message
  size times the number of messages is below 2^32 (`MessageQueue.Fill`). `MessageQueue.WrappedQueue` is one whose used
  flag refuses what the count allowed, `MessageQueue.NegativeSize` one that limits no message.
* parse_string can write past its buffer when an escape of digits reaches past the end of the string
  (`JsonEscapes.Overflow`); as long as reading ends where counting did or before, it does not
  (`JsonEscapes.FitsUnlessPast`). The converse fails (`JsonEscapes.PastButFits`).
* The parser takes more numbers than RFC 8259 has: one leading zero before other digits, a minus sign or an exponent
  without digits (`JsonNumbers.NumberMeans`).
* msleep for a multiple of 65536 ticks sleeps 65536 of them, whatever the multiple (`SleepTimes.Nap`).
* cJSON_Minify reads behind the terminator exactly when it comes to a comment that nothing closes, or a literal in
  which every later quote is taken by a backslash (`JsonMinify.NotClosed`, `JsonMinify.OpenTexts`).
* The buffered printer returns a wrong place for nested formatted objects, which no caller uses
  (`JsonBuffer.PrintBuffer.PutValue`).
* A delete over a connect can leave a request without acknowledgement, and only that can (`Netconn.Conn.Step`): the
  delete, if the connect does not block, the first close fails and the connection then breaks or is made
  (`Netconn.NeverAcknowledged`, `Netconn.NeverAcknowledgedConnected`); the connect, if it blocks
  (`Netconn.ConnectForgotten`). A write that fails leaves its offset behind.

## Model

| member | source | states |
|---|---|---|
| `FatWindow.FatFs.SyncWindow` | hwutil/fs/fatfs/ff.c:700-724 | the logical disk (device with the dirty window over it, second FAT left out) is the same before and after, also when the device write fails; on success the window is clean; without device failures every FAT sector but a dirty one still equals its second copy |
| `FatWindow.FatFs.MoveWindow` | hwutil/fs/fatfs/ff.c:729-750 | same logical disk, on every outcome; on success the window holds the sector asked for as the logical disk has it; mirroring is kept when no device call failed |
| `FatWindow.FatFs.Reflect` | hwutil/fs/fatfs/ff.c:715-720 | only sectors of the second FAT change; if no write fails the second copy of the window sector is the window |
| `FatWindow.WrapTest` | hwutil/fs/fatfs/ff.c:715 | the unsigned comparison recognises exactly the sectors of the FAT |
| `FatCodec.PutGet` | hwutil/fs/fatfs/ff.c:834-918 | storing an entry and reading it back gives the value cut to 12, 16 or 28 bits; every other entry reads as before, FAT12 neighbours that share a byte included; the top 4 bits of a FAT32 entry are kept |
| `FatCodec.Put12` | hwutil/fs/fatfs/ff.c:889-901 | a FAT12 entry is stored in its one and a half bytes without touching the nibble of its neighbour |
| `FatCodec.Merge32` | hwutil/fs/fatfs/ff.c:911-917 | the value with the top 4 bits of what was there or-ed in; its low 28 bits are kept |
| `FatCodec.OnDisk` | hwutil/fs/fatfs/ff.c:834-858 | every entry is the little-endian word, or the twelve bits in two bytes, that the FAT32 specification, section "FAT Data Structure", puts at its place |
| `FatTable.GetFat` | hwutil/fs/fatfs/ff.c:818-862 | the entry of the FAT seen through the window, across sector boundaries; 1 for a cluster number out of range; 0xFFFFFFFF only after a device failure; the logical disk is unchanged |
| `FatTable.PutFat` | hwutil/fs/fatfs/ff.c:873-926 | the FAT becomes the old one with this entry cut to its width, nothing else of the logical disk changes, including when the window is written back between the two bytes of a FAT12 entry; a device failure can spoil this entry only |
| `FatTable.FatHalfPut` | hwutil/fs/fatfs/ff.c:889-901 | when the second half of a FAT12 entry could not be stored, all other entries are still as before |
| `FatAlloc.FindFree` | hwutil/fs/fatfs/ff.c:1011-1023 | the first entry below 2 in cyclic order behind the starting point decides: its cluster if it is free, 1 if it is marked 1; 0 if there is no such entry |
| `FatAlloc.CreateChain` | hwutil/fs/fatfs/ff.c:990-1040 | an existing successor is returned unchanged; otherwise the first free cluster in search order is taken and only its entry and that of the old tail change; 1 exactly when an entry marked 1 comes first, 0 when no entry is free or marked 1; the free count stays right |
| `FatAlloc.CreatedChange` | hwutil/fs/fatfs/ff.c:990-1040 | a call that changed the FAT is a new chain of one cluster, or one more cluster on the chain it was given |
| `FatAlloc.Serve` | hwutil/fs/fatfs/ff.c:937-1040 | over every run of create_chain and remove_chain calls without device failures all chains stay acyclic, disjoint and ended, free plus chained clusters stay the same number, and a right free count stays right |
| `FatAlloc.RemoveChain` | hwutil/fs/fatfs/ff.c:937-979 | the FAT becomes the result of following and clearing entries, for every FAT, cyclic or damaged, with termination; after a device failure entries that were free still are; the free count stays right |
| `FatChains.RemoveChainExact` | hwutil/fs/fatfs/ff.c:953-975 | on a chain that ends in an end mark, exactly the clusters of that chain become free |
| `FatChains.RemoveWalk` | hwutil/fs/fatfs/ff.c:953-975 | on any FAT exactly the entries from the first on are cleared, up to an end mark, back to one of them in a cycle, or to a free or a bad entry; only the bad one is an error |
| `FatChains.CreateKeeps` | hwutil/fs/fatfs/ff.c:1025-1034 | a new chain of one free cluster leaves all chains acyclic, disjoint and ended |
| `FatChains.StretchKeeps` | hwutil/fs/fatfs/ff.c:1025-1034 | appending a free cluster to one chain leaves all chains acyclic, disjoint and ended |
| `FatChains.ReleaseKeeps` | hwutil/fs/fatfs/ff.c:953-975 | removing one chain leaves the others as they were |
| `FatChains.RunKeeps` | hwutil/fs/fatfs/ff.c:937-1040 | over every run of allocations and removals the chains stay acyclic, disjoint and ended, and free clusters plus chained clusters stay the same number |
| `FatChains.FreeCountUpdate` | hwutil/fs/fatfs/ff.c:960-963 | how one changed entry changes the number of free clusters |
| `FatFreeScan.GetFree` | hwutil/fs/fatfs/ff.c:3404-3461 | the cached count if plausible; otherwise the number of zero entries up to where the scan got, counted entry by entry for FAT12 and byte by byte over whole FAT sectors for FAT16 and FAT32; a scan cut short by an error still stores and returns its count |
| `FatFreeScan.ScanSectors` | hwutil/fs/fatfs/ff.c:3436-3454 | the chunked scan counts the same zero entries that reading entry by entry would |
| `FatFreeScan.FullScan` | hwutil/fs/fatfs/ff.c:3436-3454 | a complete scan is the number of free clusters if and only if the volume is FAT12 or both reserved entries are nonzero |
| `FatFreeScan.FullScanFails` | hwutil/fs/fatfs/ff.c:3436-3454 | every FAT16 volume whose entry 0 is zero and that has no free cluster: the complete scan counts one |
| `FatFreeScan.CutScan` | hwutil/fs/fatfs/ff.c:3428-3457 | for every FAT type, the count of a scan that ended at some entry is right if and only if as many free clusters lie beyond that entry as zero reserved entries were counted; with reserved entries in use, if and only if none lies beyond |
| `FatFreeScan.CutScanFails` | hwutil/fs/fatfs/ff.c:3436-3457 | every FAT16 volume with a free cluster whose first FAT sector cannot be read: none is counted |
| `FatFreeScan.CutScanRightByChance` | hwutil/fs/fatfs/ff.c:3436-3457 | FAT16 volumes on which a zero reserved entry that was counted makes up for the one free cluster that was not |
| `FatLinkMap.ClmtClust` | hwutil/fs/fatfs/ff.c:1052-1069 | the table walk computes the lookup in the stored fragments |
| `FatLinkMap.CreateLinkMap` | hwutil/fs/fatfs/ff.c:3047-3072 | the size reported is 2 plus twice the number of contiguous fragments, also when the table is too small; a table that fits holds the fragments; it fails exactly on a chain whose end mark is the number after its last cluster |
| `FatLinkMap.FragmentCount` | hwutil/fs/fatfs/ff.c:3053-3065 | the stored fragments are the maximal contiguous ones: one more than the breaks of the chain |
| `FatLinkMap.LinkMapAgrees` | hwutil/fs/fatfs/ff.c:1052-1069 | a stored table finds cluster k of the chain for every k below its length, and 0 beyond |
| `FatLinkMap.MapAndSeek` | hwutil/fs/fatfs/ff.c:3047-3079 | building the map and looking an offset up in it gives the cluster of the chain at that offset, 0 past its end |
| `FatLayout.Clust2Sect` | hwutil/fs/fatfs/ff.c:800-808 | first sector of a cluster, 0 for a number out of range, with the unsigned subtraction |
| `FatLayout.FileSectInjective` | hwutil/fs/fatfs/ff.c:800-808 | different sectors of a file lie in different sectors of the device |
| `FatLayout.AmongTest` | hwutil/fs/fatfs/ff.c:2633-2645 | the unsigned test for the buffered sector among those transferred directly is exact for every transfer that lies on the device |
| `FatFile.Fil.Read` | hwutil/fs/fatfs/ff.c:2586-2677 | exactly the bytes of the file at the position, as many as asked for and there are, whether through the private buffer or directly with a dirty buffer laid over; the file is unchanged and the position moves behind them |
| `FatFile.Fil.Write` | hwutil/fs/fatfs/ff.c:2687-2800 | the file becomes the old one with the bytes laid over from the position on; fewer only when no cluster is free or the 4 GiB limit is passed, where nothing is written; errors only after device failures or on a FAT with an entry 1 |
| `FatFile.Fil.Lseek` | hwutil/fs/fatfs/ff.c:3029-3178 | the position, limited to the end in read mode; in write mode the chain is stretched and the file grows, keeping its old bytes, until no cluster is free |
| `FatFile.Fil.Truncate` | hwutil/fs/fatfs/ff.c:3470-3517 | the file ends at the position; the clusters behind it are free and the others still linked; a dirty buffer is written back |
| `FatFile.Fil.WriteReadBack` | hwutil/fs/fatfs/ff.c:2586-2800 | what was written is read back after seeking to where it was written |
| `FatFile.Fil.OtherFiles` | hwutil/fs/fatfs/ff.c:2687-2800 | after any run of calls on a file, every chain of other files that was there when it was opened is still linked, and every sector of it holds what it held |
| `FatFile.Fil.Opened` | hwutil/fs/fatfs/ff.c:2561-2575 | a file just opened on a chain of its own meets the invariant of the calls |
| `FatRuns.Run` | hwutil/fs/fatfs/ff.c:2586-3178 | any run of read, write, seek and truncate calls is answered, as long as the device does not fail and the FAT has no entry 1, exactly as a byte string with a position would answer it |
| `FatRuns.ReadsLastWritten` | hwutil/fs/fatfs/ff.c:2586-2800 | over such runs a read returns for every byte what the last write to it wrote |
| `FatRuns.ByteStays` | hwutil/fs/fatfs/ff.c:2586-3517 | a byte that no call of a run writes or cuts off is the same at its end |
| `FatPattern.Matching` | hwutil/fs/fatfs/ff.c:1795-1832 | the recursive matcher with its skip count and infinite flag holds exactly when the pattern matches behind that many characters, or at least that many; it stops on all strings |
| `FatPattern.Find` | hwutil/fs/fatfs/ff.c:1795-1832 | started with no skip it holds exactly when the name matches the pattern, where ? stands for one character, * for any number, and letters match in either case |
| `FatPattern.LiteralMatches` | hwutil/fs/fatfs/ff.c:1773-1790 | a pattern without wildcards matches the names that differ from it in the case of ASCII letters at most, and no others |
| `FatPattern.Branch` | hwutil/fs/fatfs/ff.c:1813-1827 | one attempt is exact, and when the name is used up no later start can match, so stopping early loses nothing |
| `FatPattern.BlockMatches` | hwutil/fs/fatfs/ff.c:1815-1820 | a block of wildcards means as many characters as it has question marks, or at least as many if it has an asterisk |
| `KernelHeap.Heap.Init` | hwutil/kernel/source/stdlib.c:86-120 | a region too small by the unsigned test changes nothing; one that passes becomes a proper heap of one free block if and only if its aligned end lies behind its aligned begin or has wrapped around to 0 |
| `KernelHeap.BackwardRegion` | hwutil/kernel/source/stdlib.c:86-120 | a region that runs backwards is taken for a heap of nearly 4 GiB |
| `KernelHeap.TopRegion` | hwutil/kernel/source/stdlib.c:86-120 | a region up to the last byte of memory, whose aligned end is 0, is a proper heap |
| `KernelHeap.Heap.Malloc` | hwutil/kernel/source/stdlib.c:129-196 | null exactly for size 0, for a size above what the counters leave, or if no free block is larger; otherwise the first larger block, whatever the hint: at least the rounded size and at most 24 bytes more, the rest a free block right behind it; the kernel stops exactly when the block was the only free one and at most 24 bytes too large; no live payload is touched |
| `HeapBlocks.SearchMeans` | hwutil/kernel/source/stdlib.c:148-154 | the block found is the first free one with more bytes than asked for; none is found exactly when there is none |
| `HeapBlocks.TakeGives` | hwutil/kernel/source/stdlib.c:154-168 | a request is given exactly its size with a free block behind, or all of a block that is at most 24 bytes larger; no other block changes |
| `HeapBlocks.TakeLeaves` | hwutil/kernel/source/stdlib.c:154-184 | no free block is left exactly when the request takes the last one whole |
| `KernelHeap.Heap.Free` | hwutil/kernel/source/stdlib.c:233-301 | null and addresses outside are ignored, a misaligned address or a block not in use stops the kernel, otherwise the block is released and merged with free neighbours on both sides; no live payload is touched |
| `KernelHeap.PayloadEnough` | hwutil/kernel/source/stdlib.c:136-141 | what malloc returns is at least as large as asked for if and only if rounding the size up does not wrap |
| `KernelHeap.Rounded` | hwutil/kernel/source/stdlib.c:136-141 | the least multiple of 4 that is neither below the size nor below 12; 0 when that passes 2^32 |
| `KernelHeap.WrappedRequest` | hwutil/kernel/source/stdlib.c:136-141 | a request for 2^32 - 1 bytes is rounded to 0 and gets a block without payload |
| `KernelHeap.HeldInside` | hwutil/kernel/source/stdlib.c:244-246 | an address a caller holds is never among those free ignores |
| `KernelHeap.StoredInsert` | hwutil/kernel/include/list.h:69-80 | inserting a header into the circular list in memory is inserting a block into the list of blocks |
| `KernelHeap.StoredRemove` | hwutil/kernel/include/list.h:83-87 | unlinking a header in memory is removing a block from the list of blocks |
| `HeapBlocks.HintLosesNothing` | hwutil/kernel/source/stdlib.c:148-149 | searching from the lowest free block finds the same block as searching from the first one |
| `HeapBlocks.TakeKeeps` | hwutil/kernel/source/stdlib.c:154-168 | splitting keeps the blocks in address order, tiling the heap, with no two free neighbours, and the taken one large enough |
| `HeapBlocks.ReleaseKeeps` | hwutil/kernel/source/stdlib.c:257-281 | merging on both sides keeps the tiling, and no two neighbours are free |
| `HeapBlocks.ReleaseLowest` | hwutil/kernel/source/stdlib.c:283-284 | the hint after a free is the lowest free block |
| `HeapBlocks.TakeLive` | hwutil/kernel/source/stdlib.c:154-168 | a malloc adds one live block and changes no other |
| `HeapBlocks.ReleaseLive` | hwutil/kernel/source/stdlib.c:257-281 | a free removes the one live block it was given |
| `HeapBlocks.LiveDisjoint` | hwutil/kernel/source/stdlib.c:129-196 | payloads of different live blocks do not overlap and lie inside the heap |
| `HeapBlocks.RunGood` | hwutil/kernel/source/stdlib.c:129-301 | over every run of calls that return: the tiling, no two free neighbours, a free block, and callers hold exactly the live blocks, each as large as asked for |
| `HeapBlocks.AllGivenBack` | hwutil/kernel/source/stdlib.c:233-301 | once everything was given back the heap is one single free block |
| `JsonParser.Parse` | hwutil/json/cJSON/cJSON.c:324-338 | the document of the grammar, or the place of the error; with the check for trailing text if asked |
| `JsonLanguage.AcceptedExactly` | hwutil/json/cJSON/cJSON.c:358-370 | a text is accepted, for a value, if and only if it is white space, a text of that value - keywords, strings, numbers, and arrays and objects of values with commas and white space between - and, if asked, nothing but white space behind |
| `JsonParser.ParseValue` | hwutil/json/cJSON/cJSON.c:358-370 | keywords, string, number, array or object by the first character |
| `JsonParser.ParseString` | hwutil/json/cJSON/cJSON.c:193-250 | the contents with escapes and surrogate pairs decoded, in a buffer sized by the counting pass; outcomes that would leave the text or the buffer are told apart |
| `JsonUnicode.Utf8Decodes` | hwutil/json/cJSON/cJSON.c:231-238 | what is written for every code point but the surrogates is read back as it by the decoder of RFC 3629 |
| `JsonUnicode.EscapesParsed` | hwutil/json/cJSON/cJSON.c:193-243 | a string of escapes, one UTF-16 unit or a pair of surrogates for each code point, in either case of the digits, is parsed to the UTF-8 of those code points |
| `JsonUnicode.NoCharacter` | hwutil/json/cJSON/cJSON.c:217-229 | the unit 0, a lone surrogate and missing digits leave nothing, and what is passed over |
| `JsonUnicode.UnescapeTable` | hwutil/json/cJSON/cJSON.c:209-240 | the escapes with letters; every other character stands for itself |
| `JsonParser.ParseNumber` | hwutil/json/cJSON/cJSON.c:97-116 | sign, whole part, fraction and exponent as a mantissa times a power of ten, with the leading zero rule of the code |
| `JsonNumbers.NumberMeans` | hwutil/json/cJSON/cJSON.c:97-116 | a number text of sign, digits, fraction and exponent, also in the looser forms the parser takes, is read as the number its digits stand for in base ten times the power of ten it names |
| `JsonNumbers.DigitsMean` | hwutil/json/cJSON/cJSON.c:148-164 | the digits printed for a number stand for it |
| `JsonParser.ParseArray` | hwutil/json/cJSON/cJSON.c:407-432 | the chain of values up to the closing bracket |
| `JsonParser.ParseObject` | hwutil/json/cJSON/cJSON.c:515-548 | the chain of named values up to the closing brace |
| `JsonRoundTrip.ParsePrinted` | hwutil/json/cJSON/cJSON.c:324-370 | parsing the printed text of any tree gives the tree back, formatted and compact, with and without the check for trailing text |
| `JsonRoundTrip.ValueBack` | hwutil/json/cJSON/cJSON.c:358-370 | the same for a printed value anywhere in a text |
| `JsonRoundTrip.PrintInjective` | hwutil/json/cJSON/cJSON.c:342-344 | two trees with the same text are the same tree |
| `JsonRoundTrip.EscapeBack` | hwutil/json/cJSON/cJSON.c:204-243 | every escape the printer writes is read back as the character it stands for |
| `JsonEscapes.FitsUnlessPast` | hwutil/json/cJSON/cJSON.c:193-250 | as long as the reading pass does not go beyond where the counting pass ended, what it writes fits the buffer that was counted for, even when it reads other escapes than were counted |
| `JsonEscapes.InTimeFits` | hwutil/json/cJSON/cJSON.c:193-250 | a string on which reading ends no later than counting is parsed |
| `JsonEscapes.CompleteFits` | hwutil/json/cJSON/cJSON.c:193-250 | both passes end a closed string at the same quote, and its contents fit, if the letter u of an escape always has four characters of the string behind it, digits or not |
| `JsonEscapes.Overflow` | hwutil/json/cJSON/cJSON.c:198-223 | a string whose escape lacks its digits: one byte is counted and three are written |
| `JsonEscapes.PastButFits` | hwutil/json/cJSON/cJSON.c:198-223 | going on past the end of a string does not always overrun the buffer |
| `JsonMinify.Minify` | hwutil/json/cJSON/cJSON.c:736-751 | in place: what is left of the text, terminated; or, exactly when the scan comes to a literal or comment that nothing closes, a read behind the terminator, with what was left before that place in the buffer; the write index never passes the read index and the rest of the buffer stays |
| `JsonMinify.NotClosed` | hwutil/json/cJSON/cJSON.c:746-747 | from every place of every text: it is read behind the terminator if and only if the scan reaches a comment without a closing star and slash, or a literal in which every later quote has an odd number of backslashes before it |
| `JsonMinify.StepMeans` | hwutil/json/cJSON/cJSON.c:741-748 | blanks leave nothing; a literal is kept up to the first quote that closes it; other characters are kept |
| `JsonMinify.CommentsDropped` | hwutil/json/cJSON/cJSON.c:745-746 | a comment, to the end of its line or between its marks, leaves nothing, and what is behind it stays |
| `JsonMinify.OpenTexts` | hwutil/json/cJSON/cJSON.c:746-747 | a lone quote and a comment that was only opened |
| `JsonMinify.PrintMinified` | hwutil/json/cJSON/cJSON.c:736-751 | minifying a formatted or compact print gives the compact print |
| `JsonMinify.QuotedKept` | hwutil/json/cJSON/cJSON.c:747 | string literals, with escaped quotes, backslashes and slashes, are left as they are |
| `JsonGrowth.LeastPower` | hwutil/json/cJSON/cJSON.c:118 | pow2gt gives the least power of two that is not below its argument |
| `JsonStrings.Measure` | hwutil/json/cJSON/cJSON.c:257-279 | the length of the escaped string, and whether any character is escaped |
| `JsonStrings.WriteString` | hwutil/json/cJSON/cJSON.c:264-306 | the quoted and escaped string, terminated, inside the buffer |
| `JsonUnicode.EscapeTable` | hwutil/json/cJSON/cJSON.c:285-301 | what is printed for every character |
| `JsonUnicode.NoControls` | hwutil/json/cJSON/cJSON.c:285-301 | no control character stands between the quotes of a printed string |
| `JsonPrinter.PrintValue` | hwutil/json/cJSON/cJSON.c:373-404 | the unbuffered printer writes the text of the tree; null exactly when an allocation was refused |
| `JsonPrinter.PrintArray` | hwutil/json/cJSON/cJSON.c:435-512 | entries are joined in a buffer whose precomputed length suffices |
| `JsonPrinter.PrintObject` | hwutil/json/cJSON/cJSON.c:551-659 | names and entries are joined in a buffer whose precomputed length suffices |
| `JsonLayout.PrintLaid` | hwutil/json/cJSON/cJSON.c:435-659 | read off the text: in a formatted print every member stands on a line of its own with one tab for every container open there, array values are separated by a comma and a space, and nothing else is blank |
| `JsonPrinter.MembersFit` | hwutil/json/cJSON/cJSON.c:618-627 | the length added up for an object covers its text |
| `JsonPrinter.ItemsFit` | hwutil/json/cJSON/cJSON.c:482-489 | the length added up for an array covers its text |
| `JsonBuffer.PrintBuffer.Ensure` | hwutil/json/cJSON/cJSON.c:122-137 | room for the bytes behind what was written, in a buffer of the next power of two if it has to grow; null exactly when an allocation was refused |
| `JsonBuffer.PrintBuffer.Update` | hwutil/json/cJSON/cJSON.c:139-145 | the offset moves to the end of what a nested print wrote |
| `JsonBuffer.PrintBuffer.PutValue` | hwutil/json/cJSON/cJSON.c:373-404 | the text of the tree stands behind what was written before, across any regrowth; the place returned, which is wrong for nested formatted objects |
| `JsonBuffer.PrintBuffered` | hwutil/json/cJSON/cJSON.c:346-354 | for every first buffer size the text is that of the unbuffered printer; null exactly when an allocation was refused |
| `JsonBuffer.PrintBoth` | hwutil/json/cJSON/cJSON.c:342-354 | both printers give the same text |
| `ReadyGroup.HighestBit` | hwutil/kernel/source/sched.c:81-126 | the table lookup gives the highest bit that is set |
| `KernelLists.UnlinkLinked` | hwutil/kernel/include/list.h:83-87 | removing the node of a thread leaves every list a well-formed circle without it |
| `KernelLists.LinkTailLinked` | hwutil/kernel/include/list.h:69-80 | inserting a node at the tail leaves every list a well-formed circle with the thread last |
| `Scheduler.Kernel.constructor` | hwutil/kernel/source/sched.c:288-306 | the lists of a fresh scheduler, with the idle thread ready and running |
| `Scheduler.Kernel.InsertThread` | hwutil/kernel/source/sched.c:313-317 | a new thread stands last on the ready list of its priority |
| `Scheduler.Kernel.SetReady` | hwutil/kernel/source/sched.c:324-346 | the thread moves from wherever it was to the tail of its ready list; each thread stays on exactly one list and bit p is set exactly when ready list p is not empty |
| `Scheduler.Kernel.SetSuspend` | hwutil/kernel/source/sched.c:354-361 | the thread is on no list, and its bit is cleared if that emptied its ready list |
| `Scheduler.Kernel.SetSleep` | hwutil/kernel/source/sched.c:368-376 | the thread moves to the sleep list; the invariant holds |
| `Scheduler.Kernel.Reclaim` | hwutil/kernel/source/sched.c:383-402 | the thread moves to the delete list; the invariant holds |
| `Scheduler.Kernel.SwitchThread` | hwutil/kernel/source/sched.c:147-192 | the running thread heads the highest ready list that is not empty, so no ready thread outranks it |
| `Scheduler.Kernel.WakeSleepers` | hwutil/kernel/source/sched.c:197-217 | every sleeper is counted down once, with the 16-bit wrap, and those at zero join their ready lists in order |
| `SleepTimes.Nap` | hwutil/kernel/source/unistd.c:222-240 | over any calls that do not move it, a thread that goes to sleep for n ticks is on the sleep list before its n-th tick and ready from that tick on; a time that is 0 in 16 bits takes 65536 ticks |
| `SleepTimes.WakesOnTime` | hwutil/kernel/source/sched.c:197-217 | the same over every run of atomic sections |
| `Scheduler.Kernel.Proc` | hwutil/kernel/source/sched.c:245-281 | a tick: the slice of the running thread counts down modulo 256 and at zero it goes to the tail, sleepers wake, the highest thread runs; nothing happens while locked |
| `Scheduler.Kernel.Yield` | hwutil/kernel/source/sched.c:446-460 | the running thread goes to the tail of its list and the highest thread runs |
| `Scheduler.Kernel.ReportSignal` | hwutil/kernel/source/sched.c:528-548 | a thread that is not handling a signal becomes ready from any list |
| `Scheduler.Kernel.DeleteThread` | hwutil/kernel/source/sched.c:421-439 | the thread, running or not, goes to the delete list and the highest thread runs |
| `Scheduler.Kernel.Start` | hwutil/kernel/source/sched.c:131-142 | the head of the highest ready list runs |
| `Scheduler.Kernel.MSleep` | hwutil/kernel/source/unistd.c:222-240 | the running thread sleeps for its ticks, cut to 16 bits |
| `RoundRobin.BoundedWait` | hwutil/kernel/source/sched.c:245-281 | over every sequence of atomic sections of the kernel a thread at position k of its ready list is the current thread before 256 k more ticks, as long as it is not itself moved and no thread above it is ready; one more tick if a switch is still to come at the start |
| `RoundRobin.Watch` | hwutil/kernel/source/sched.c:245-281 | the same for every sequence of calls on the kernel |
| `RoundRobin.Perform` | hwutil/kernel/source/sched.c:197-548 | every call on the kernel - tick, yield, sleep, block, wake, signal, delete, create - is a run of these sections |
| `RoundRobin.Closer` | hwutil/kernel/source/sched.c:245-281 | positions never grow, nor does the bound, and every tick lowers it, also one that comes between moving the current thread and switching |
| `RoundRobin.SlicedPlace` | hwutil/kernel/source/sched.c:245-253 | what counting down the slice of the current thread does to the place of another and to the head of its list |
| `RoundRobin.AwakeArrives` | hwutil/kernel/source/sched.c:197-217 | sleepers that wake up join behind the threads that are ready |
| `SleepTimes.KeepsSlice` | hwutil/kernel/source/sched.c:245-253 | a thread that runs is not switched from before the last tick of its slice, unless it is moved or a thread above it becomes ready |
| `SleepTimes.SliceEnds` | hwutil/kernel/source/sched.c:245-253 | the last tick of a slice hands over to the thread behind it |
| `KernelBlocking.Semaphore.Init` | hwutil/kernel/source/semaphore.c:40-57 | refused above the maximum; the value starts at zero, the argument is only its bound |
| `KernelBlocking.Semaphore.TryWait` | hwutil/kernel/source/semaphore.c:66-87 | one round: one off the value, or the running thread moves to the wait list and another runs |
| `KernelBlocking.Semaphore.PostSection` | hwutil/kernel/source/semaphore.c:119-137 | the section of sem_post: the value grows up to its bound and the first waiter becomes ready |
| `KernelBlocking.Semaphore.Post` | hwutil/kernel/source/semaphore.c:111-138 | refused at the maximum, otherwise the section |
| `SemaphoreRuns.RunGood` | hwutil/kernel/source/semaphore.c:40-138 | over every run: while threads wait the value is at most the number of woken threads that have not tried again; the value stays within its bound; posts are exactly the completed waits, the value, and the posts that found the value at its bound |
| `SemaphoreRuns.PostServes` | hwutil/kernel/source/semaphore.c:111-138 | a post below the bound with a waiter counts, and the next attempt, if it is that of the woken thread, completes its wait, whatever posts, calls and signals come between |
| `SemaphoreRuns.StartGood` | hwutil/kernel/source/semaphore.c:40-57 | a fresh semaphore with any threads meets the invariant |
| `SemaphoreRuns.StepGood` | hwutil/kernel/source/semaphore.c:66-138 | each atomic section keeps this, also when another thread takes the value first, a signal wakes a waiter, or the test of a post is out of date in its section |
| `SemaphoreRuns.SomeoneTakes` | hwutil/kernel/source/semaphore.c:96-102 | with a value left and a waiter, some woken thread is about to try and will get it |
| `KernelRuns.RunActs` | hwutil/kernel/source/semaphore.c:40-138 | every sequence of calls on the kernel - waits and posts on a semaphore, ticks, yields, sleeps, signals, exits, other objects - is a run of the sections of that semaphore, so the invariant of those runs holds on the kernel |
| `KernelRuns.NewSemaphore` | hwutil/kernel/source/semaphore.c:40-57 | a semaphore that was just made starts such a run |
| `KernelBlocking.Mutex.TryLock` | hwutil/kernel/source/pthread.c:351-400 | one round: taken if free, refused if owned by the caller, otherwise the caller moves to the wait list; before the kernel runs it succeeds without owning |
| `KernelBlocking.Mutex.Unlock` | hwutil/kernel/source/pthread.c:431-476 | only the owner unlocks; the mutex is free and the first waiter ready; before the kernel runs nothing happens |
| `MutexRuns.RunExclusive` | hwutil/kernel/source/pthread.c:351-476 | over every run the threads that hold the mutex are exactly its owner |
| `MutexRuns.OwnerStays` | hwutil/kernel/source/pthread.c:431-476 | an owner stays the owner over every step but its own unlock |
| `MutexRuns.OwnerRefused` | hwutil/kernel/source/pthread.c:374-376 | an owner that locks again is refused at once; an owner never waits |
| `MutexRuns.UnlockServes` | hwutil/kernel/source/pthread.c:431-476 | an unlock frees the mutex, and the next attempt, if it is that of the woken thread, makes it the owner |
| `MutexRuns.RoundsCount` | hwutil/kernel/source/pthread.c:411-421 | in one call a thread has 128 rounds |
| `MutexRuns.ServedUnless` | hwutil/kernel/source/pthread.c:411-421 | a step leaves a free mutex with waiters and no thread coming for it exactly when it is an unlock whose woken thread has used its 128 rounds, others wait behind it and nobody else is trying |
| `MutexRuns.RunServed` | hwutil/kernel/source/pthread.c:411-476 | while no thread uses up its rounds, a free mutex with waiters always has a thread coming for it |
| `MutexRuns.Stranded` | hwutil/kernel/source/pthread.c:411-421 | three threads can reach a free mutex with a waiter and nobody coming |
| `KernelRuns.RunMutexActs` | hwutil/kernel/source/pthread.c:351-476 | every sequence of calls on the kernel is a run of the sections of a mutex, so at most its owner holds it |
| `KernelRuns.NewMutex` | hwutil/kernel/source/pthread.c:335-341 | a mutex that was just made starts such a run |
| `KernelRuns.PerformBeside` | hwutil/kernel/source/sched.c:197-548 | what any other call does to the wait list of an object: a signal takes its thread off, nothing else changes it |
| `MessageQueue.Open` | hwutil/kernel/source/mqueue.c:57-114 | with 32-bit longs and sizes: refused if the wrapped product is too large, the wrapped size is 0, memory is short, or a semaphore cannot count that far; otherwise an empty queue |
| `MessageQueue.Queue.Send` | hwutil/kernel/source/mqueue.c:126-178 | if the size of the buffer did not wrap: appended unless the queue is full or the message too long, and the used flag never refuses; otherwise refused by the flag when all slots that start in the buffer are taken, or told apart when it leaves its slot; in blocking mode the semaphore equals the count |
| `MessageQueue.Fill` | hwutil/kernel/source/mqueue.c:76-94 | a fresh queue takes as many messages as it was opened for if and only if the size of header and message times their number is below 2^32 |
| `MessageQueue.RoomExact` | hwutil/kernel/source/mqueue.c:76-94 | the ring has that many slots exactly then; otherwise slots are smaller than headers or too few |
| `MessageQueue.WrappedQueue` | hwutil/kernel/source/mqueue.c:76-94 | a queue for 2^29 + 1 empty messages that refuses the second |
| `MessageQueue.NegativeSize` | hwutil/kernel/source/mqueue.c:136-150 | a negative message size makes slots smaller than their headers and limits no message |
| `MessageQueue.Queue.Receive` | hwutil/kernel/source/mqueue.c:190-235 | the oldest message; in blocking mode always one; what was received is always a prefix of what was sent |
| `Netconn.Conn.WriteMore` | hwutil/net/lwip/source/api/api_msg.c:1208-1333 | an attempt fails only on an error of the stack, other than short memory while it blocks, or without room while it does not block; otherwise min(rest, 65535, room) more bytes are handed over in order, and the write is answered when all was taken or it does not block; the error path leaves the offset as it is |
| `Netconn.Drain` | hwutil/net/lwip/source/api/api_msg.c:1208-1389 | a write that blocks is answered with its whole length, all of it handed over in order, as soon as the room of the attempts adds up to it, and goes on until then |
| `Netconn.Conn.DoWrite` | hwutil/net/lwip/source/api/api_msg.c:1343-1389 | refused after a fatal error, during another operation or without a connection; otherwise the first attempt is made |
| `Netconn.Conn.DoConnect` | hwutil/net/lwip/source/api/api_msg.c:984-1032 | refused or answered at once, or the connect under way is this one |
| `Netconn.Conn.DoConnected` | hwutil/net/lwip/source/api/api_msg.c:937-973 | in any phase: a connect that blocks, or the delete that took its place, is acknowledged; a delete over a connect that does not block is lost; a signal without a request comes only if the stack reports a connect it did not take |
| `Netconn.Conn.CloseInternal` | hwutil/net/lwip/source/api/api_msg.c:747-822 | acknowledged once when the stack could close, kept otherwise |
| `Netconn.Conn.DoClose` | hwutil/net/lwip/source/api/api_msg.c:1451-1482 | refused during another operation, without a connection or for half a listener; otherwise answered if the stack could close, and under way if not |
| `Netconn.Conn.DoDelete` | hwutil/net/lwip/source/api/api_msg.c:832-888 | refused during a write or close; otherwise the delete under way is this one, also over a connect, and a connect that blocks is lost; without a control block it is answered with whatever result the request held |
| `Netconn.Conn.ErrTcp` | hwutil/net/lwip/source/api/api_msg.c:347-404 | the request under way fails and is acknowledged; it is lost exactly when it is a delete over a connect that does not block |
| `Netconn.Conn.Callback` | hwutil/net/lwip/source/api/api_msg.c:277-337 | a write or close under way goes on, with at most one acknowledgement |
| `Netconn.Conn.Step` | hwutil/net/lwip/source/api/api_msg.c:277-1482 | any request or callback in any state: every request is acknowledged at most once, is the current one or is lost, and one is lost exactly when a delete takes the place of a connect that blocks, or the connection is made or breaks while a delete over a connect that does not block is closing |
| `Netconn.NeverAcknowledged` | hwutil/net/lwip/source/api/api_msg.c:347-404 | a run in which a delete is lost because the connection breaks |
| `Netconn.NeverAcknowledgedConnected` | hwutil/net/lwip/source/api/api_msg.c:937-973 | a run in which a delete is lost because the connection is made |
| `Netconn.ConnectForgotten` | hwutil/net/lwip/source/api/api_msg.c:832-888 | a run in which a connect is lost to a delete |
| `Netconn.OnceMore` | hwutil/net/lwip/source/api/api_msg.c:1315-1327 | acknowledging a request that had no acknowledgement keeps every request acknowledged at most once |

## Left out

- Volumes: mounting, f_open, f_sync, directories, long names, code-page tables, file locking, f_mkfs, f_fdisk, labels and string I/O; f_mkdir is not modelled because it rewrites the window by hand.
- Geometry.Fits: stands for the checks of the mount code (hwutil/fs/fatfs/ff.c:2270-2325). That the number of FAT32 entries is below 2^28 is taken from the FAT32 specification; the mount code does not check it.
- FatFile.Fil.Lseek: the bytes of a gap made by seeking behind the end are not specified, as the code does not write them. Fast seek with a link map is not combined with it; the link map is proved on its own.
- FatFile.Fil.constructor: f_open is reduced to the object it leaves behind; validate() and the volume lock are not modelled, and the buffers of the caller are values.
- FatPattern: a string is its sequence of characters in the code page, one or two bytes each; splitting bytes into characters is not modelled.
- KernelHeap.Heap.Malloc: the heap mutex is not modelled; a call is atomic. The two size counters are carried with their wrap but nothing is claimed of their difference, because malloc adds the requested size and free subtracts the whole block.
- KernelHeap.Heap.Free: for addresses inside the heap that are no header of a block the source reads arbitrary words; such calls are outside the contract.
- Scheduler: stacks, context switch, interrupt masking, the global thread list and CPU usage; interrupt-suspended sections are atomic. The idle thread does not block, exit or sleep (hwutil/kernel/source/idle.c:37-41).
- Scheduler.Kernel.InsertThread: the source puts a new thread on its list with interrupts enabled (hwutil/kernel/source/sched.c:313-317, hwutil/kernel/source/pthread.c:293), so a tick can fall inside the insert; the model takes it as atomic.
- KernelRuns: threads exit only outside the calls of the object, as pthread_exit is the one caller of sched_delete_thread (hwutil/kernel/source/pthread.c:170).
- KernelBlocking.Semaphore.Init: initialising an object again while threads wait for it, which cuts them off their list, is outside the contract.
- MessageQueue: a buffer that malloc granted is taken to have the size asked for. Calls are whole, since the count is changed under two different mutexes; a receive that would block is not a step; the value mq_receive returns for an empty queue is not set by the source.
- JsonParser: every allocation of the parser succeeds; recursion depth, exponent overflow and the conversion of a number to double and int are not modelled, numbers being a mantissa times a power of ten. Children are values and not linked nodes, so the prev pointers are not captured.
- JsonPrinter: numbers are ints; the texts for other doubles are not modelled. Trees are cJSON items made of these kinds, with C strings for texts and names. Sizes above 2^30 count as refused allocations, where pow2gt overflows an int. The C strings returned for entries are values.
- JsonParser.ParseValue: keywords are compared as strncmp of the C standard does; the kernel's own strncmp compares one byte more (hwutil/kernel/source/string.c:98-104).
- JsonMinify.Minify: once it reads behind the terminator, only what was left before the unclosed place is claimed of the buffer.
- Netconn: an acknowledgement is the result stored in a request with the signal that follows; which of several threads waiting on the one semaphore of a connection wakes is not modelled. UDP and raw connections, listening, accepting, receiving, send timeouts and core locking; assertions are compiled out in this port (hwutil/net/lwip/include/port/arch/cpu.h:38). The TCP stack answers as it likes.
- Drivers, boards, shell, sockets, stdio and string functions are not part of this model.
