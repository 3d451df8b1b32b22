# Verification of the Maturin kernel's locks, allocator, page table, FAT driver, streams, user stack and pipe

This project models the parts of Maturin, a RISC-V kernel with its own FAT driver, whose correctness is not
visible from any single function, and proves what they are meant to guarantee. Every file is one component:

- `RwLock.dfy`, `TicketMutex.dfy`: the two spin locks as state machines. Each atomic operation is one event,
  and any number of agents interleave their events in any order.
- `BitAlloc.dfy`: the 16-ary segment-tree bitmap at every depth, as a class whose nodes are updated in place
  and which refines the set of its free indices.
- `PageTable.dfy`: the Sv39 table (section 4.4 of the RISC-V Privileged Architecture, version 1.12) over
  physical memory. The trees of all tables form a forest, apart from the kernel slots that roots share; one
  user half is one part of a finite map from (table, page) to (frame, flags).
- `DirEntry.dfy`, `LongName.dfy`, `ShortName.dfy`, `Directory.dfy`, `Dir.dfy`, `Rename.dfy`: FAT directories (section "FAT
  Long Directory Entries" of the Microsoft FAT32 File System Specification 1.03). Slots are encoded and decoded
  byte by byte; the long-name generator and builder are a printer and a parser; short names are generated
  against collisions; `Directory.dfy` is the theory of a directory as decoded slots, `Dir.dfy` the objects
  and loops that implement it, and `Rename.dfy` puts removal and creation together.
- `FatGeometry.dfy`: the size of the file allocation table and the checks on a formatted volume (section "FAT
  Type Determination" of the same specification).
- `Streams.dfy`: `BufStream` and `StreamSlice` against one definition of what a call on a stream does.
- `InitStack.dfy`: the initial user stack, serialized downwards and read back upwards.
- `Pipe.dfy`: the ring buffer and the two ends of a pipe.
- `Options.dfy`, `MachineInts.dfy`: an optional value; bytes and words as ranges of integers.

Where the source updates fields, arrays or buffers, the model is a class whose methods do the same steps and
are tied by their contracts to functions on values; the lemmas are about those functions. Machine words are
ranges of the integers, bit operators are written as arithmetic, and wrap-around and truncating casts are
written out where they matter. A panic of the source is a precondition (a slice at a bad index), or an
outcome of its own (`Panics`, `Overflows`, a cleared `ok`).

What the code does and its documentation does not say, or says otherwise (in brackets, the member that has the
exact condition, and the one that shows an input where it has no condition to show it):

- `RwLockWriteGuard::downgrade_to_upgradeable` stores the whole word and so forgets readers that have
  failed but not yet undone their increment; one of them then takes the word below zero. Its debug assertion
  trips on the UPGRADED bit that a failed upgradeable read leaves behind (`DowngradeToUpgradeableSoundIff`,
  `DowngradeToUpgradeableCounterexample`, `DowngradeAssertionCounterexample`).
- A kernel slot that is empty when the kernel regions are installed is not shared: what the kernel maps there
  later is invisible to the task (`RunKeepsShared`, `EmptySlotDiverges`).
- `PageTable::query` answers for every page whose leaf table exists, mapped or not (`QueryRightIff`,
  `QueryAnswersUnmapped`).
- `alloc_contiguous` never finds a block whose alignment exceeds the capacity, not even at index 0
  (`FindContiguous`).
- `create_file` and `create_dir` take `name[1..]` before they validate the name, so an empty name panics
  instead of getting `InvalidFileNameLength`, and a valid name panics if and only if it starts with a
  multi-byte character (`Create`, `ValidNameAnsweredIff`, `NamesThatPanic`).
- `rename` marks the old entry deleted before it validates the new name: if that is unused but not valid, the
  entry is lost (`LostIff`, `LostItemIsGone`, `QuestionMarkLoses`).
- A long name that ends in U+FFFF loses those units, because reading strips them as padding
  (`ValidNameComesBackIff`).
- `next_iteration` of the short-name generator leaves `exact_match` set; that is harmless, because the next
  scan would set it again (`ScannedKeeps`).
- A cluster smaller than a sector makes `format_volume` divide by zero, unless the volume is too small for
  every FAT type, when it is refused (`FormattedValidates`, `ClusterSmallerThanSector`).
- `validate` multiplies the sectors of a FAT by their bits in 32 bits, which overflows for very large FATs, also
  ones that `format_bpb` has just made (`FormattedValidates`, `LargestVolumeOverflows`).
- With default options and 512-byte sectors no volume of 8227 to 8234 sectors can be formatted: with any
  cluster size there are eight sizes between FAT12 and FAT16 (`Fat12FitsIff`, `Fat16FitsIff`, `DefaultFormat`).
- A `BufStream::seek` that fails after its flush drops the bytes read ahead and thereby moves the position
  (`BufStream.SeekTo`, `FailedSeekSkips`).
- A flush of `BufStream` that runs out of room keeps all its bytes pending behind those that were written, so
  the written ones will be there twice (`FailedFlushKeepsIff`, `FailedFlushRepeats`).
- A wait of `Pipe::read` or `Pipe::write` switches tasks at most twice, so either may return short with both
  ends alive (`Pipe.Read`, `Pipe.Write`, `ShortThoughAlive`).

## Model

| member | source | states |
|---|---|---|
| `RwLock.StepKeepsInv` | dependencies/kernel-sync/src/rwlock.rs:217-309 | every atomic step of every operation keeps the lock word equal to 4 times its readers plus the flag bits, with at most one upgrader and one writer |
| `RwLock.RunKeepsInv` | dependencies/kernel-sync/src/rwlock.rs:217-708 | so does every interleaving of any number of agents |
| `RwLock.MutualExclusion` | dependencies/kernel-sync/src/rwlock.rs:288-309 | in every interleaving a live write guard excludes every other guard, and there is at most one upgradable guard |
| `RwLock.WordAccounting` | dependencies/kernel-sync/src/rwlock.rs:217-234 | the word is 4 x (read guards + readers in flight) plus the flags; a stray UPGRADED bit needs a writer; the word is 0 exactly when nobody is left |
| `RwLock.ZeroMeansNobody` | dependencies/kernel-sync/src/rwlock.rs:288-309 | the compare-and-swap from 0 succeeds exactly when no guard and no call in flight exists |
| `RwLock.UpgradedMeansAlone` | dependencies/kernel-sync/src/rwlock.rs:451-476 | the swap from UPGRADED succeeds exactly when the upgrader is alone |
| `RwLock.AttemptsSucceedIff` | dependencies/kernel-sync/src/rwlock.rs:337-351 | each attempt succeeds if and only if the agents that exclude it are absent |
| `RwLock.DropsAreSafe` | dependencies/kernel-sync/src/rwlock.rs:678-708 | the destructors' debug assertions hold and no subtraction borrows from another field |
| `RwLock.ReadersSeeStableData` | dependencies/kernel-sync/src/rwlock.rs:648-670 | data cannot change while a read or upgradable guard is held, in any run |
| `RwLock.DowngradeKeepsInv` | dependencies/kernel-sync/src/rwlock.rs:508-580 | both two-step downgrades to a read guard keep the invariant between and after their steps |
| `RwLock.DowngradeToUpgradeableSoundIff` | dependencies/kernel-sync/src/rwlock.rs:594-607 | the plain store keeps the invariant if and only if the reader field is zero at that moment, and the debug assertion holds if and only if no stray UPGRADED bit is set; both hold only for the word WRITER |
| `RwLock.DowngradeToUpgradeableCounterexample` | dependencies/kernel-sync/src/rwlock.rs:594-607 | a run in which it is not, and the word goes below zero |
| `RwLock.DowngradeAssertionCounterexample` | dependencies/kernel-sync/src/rwlock.rs:594-598 | a run in which a failed upgradeable read alone trips the debug assertion |
| `TicketMutex.StepRefinesQueue` | dependencies/kernel-sync/src/ticket.rs:55-122 | every step of lock, try_lock and release acts as join, leave or nothing on one FIFO queue |
| `TicketMutex.RunKeepsInv` | dependencies/kernel-sync/src/ticket.rs:55-122 | the counters describe such a queue after every interleaving |
| `TicketMutex.TicketsExactlyCover` | dependencies/kernel-sync/src/ticket.rs:57-60 | outstanding tickets are distinct and exactly those from next_serving up to next_ticket |
| `TicketMutex.MutualExclusionInOrder` | dependencies/kernel-sync/src/ticket.rs:58-71 | the only possible holder is the owner of ticket next_serving |
| `TicketMutex.CasJoinsEmpty` | dependencies/kernel-sync/src/ticket.rs:77-85 | the swap of try_lock, with its load apart, succeeds only when nobody is queued |
| `TicketMutex.TryLockNeverOvertakes` | dependencies/kernel-sync/src/ticket.rs:75-100 | in every interleaving try_lock never overtakes a waiter |
| `TicketMutex.TryLockSucceedsIffIdle` | dependencies/kernel-sync/src/ticket.rs:75-100 | uninterrupted, it succeeds exactly on an idle lock |
| `TicketMutex.EldestCanProceed` | dependencies/kernel-sync/src/ticket.rs:58-60 | whenever somebody has a ticket, some holder can release or take the lock |
| `TicketMutex.ServingCountsReleases` | dependencies/kernel-sync/src/ticket.rs:116-122 | guards are granted in ticket order: a ticket is served after exactly the releases before it |
| `BitAlloc.Node.Alloc` | dependencies/bitmap-allocator/src/lib.rs:73-82 | at every depth, takes away the least free index, or finds there is none |
| `BitAlloc.Node.Alloc16` | dependencies/bitmap-allocator/src/lib.rs:156-164 | the same on a leaf |
| `BitAlloc.Node.Dealloc` | dependencies/bitmap-allocator/src/lib.rs:91-95 | adds exactly that index to the free set, and summary bits stay exact |
| `BitAlloc.Node.Insert` | dependencies/bitmap-allocator/src/lib.rs:96-98 | unions a non-empty range |
| `BitAlloc.Node.Remove` | dependencies/bitmap-allocator/src/lib.rs:99-101 | subtracts a non-empty range |
| `BitAlloc.Node.ForRange` | dependencies/bitmap-allocator/src/lib.rs:125-143 | the loop over children marks exactly the range and refreshes the summary bits it must |
| `BitAlloc.GlueMark` | dependencies/bitmap-allocator/src/lib.rs:129-142 | marking each child's part of a range, cut as the code cuts it, marks the range as a whole |
| `BitAlloc.GlueTakeMin` | dependencies/bitmap-allocator/src/lib.rs:75-78 | the least index of the first non-empty child is the least of all |
| `BitAlloc.GlueEmpty` | dependencies/bitmap-allocator/src/lib.rs:105-107 | a node is empty exactly when all its children are, so one word of summary bits decides |
| `BitAlloc.Node.Test` | dependencies/bitmap-allocator/src/lib.rs:108-110 | membership in the free set, through all levels |
| `BitAlloc.Node.Next` | dependencies/bitmap-allocator/src/lib.rs:111-121 | the least free index not below the key, through all levels |
| `BitAlloc.GlueNextSome` | dependencies/bitmap-allocator/src/lib.rs:113-120 | the answer of the first child that has one is the answer of the node |
| `BitAlloc.GlueNextNone` | dependencies/bitmap-allocator/src/lib.rs:113-120 | and there is none if no child has one |
| `BitAlloc.Node.FindContiguous` | dependencies/bitmap-allocator/src/lib.rs:197-228 | terminates with the least aligned base whose indices are all free, or with none if there is none; for size 0 and for an alignment above the capacity there is never one |
| `BitAlloc.AlignUpIsLeast` | dependencies/bitmap-allocator/src/lib.rs:214-214 | the shift expression jumps to the least aligned index not below next |
| `BitAlloc.GapRulesOut` | dependencies/bitmap-allocator/src/lib.rs:210-217 | no block starts between the old base and the one jumped to |
| `BitAlloc.Node.AllocContiguous` | dependencies/bitmap-allocator/src/lib.rs:83-90 | first fit, and exactly that block leaves the free set |
| `Sv39.EntryRoundTrip` | kernel/src/memory/page_table.rs:47-80 | an entry gives back the page number (44 bits) and flags it was built from |
| `Sv39.SetFlagsKeepsPage` | kernel/src/memory/page_table.rs:75-77 | changing the flags keeps the page, and the other way round |
| `Sv39.InUseBits` | kernel/src/memory/page_table.rs:199-202 | a mapped entry has VALID, ACCESS and DIRTY, and the caller's five permission bits |
| `Sv39.WalksMeet` | kernel/src/memory/page_table.rs:162-178 | two walks end in one entry only for the same page of the same table, or of tables that share the kernel slot |
| `Sv39.AddrCreateKeeps` | kernel/src/memory/page_table.rs:133-142 | a table page added on the way keeps the forest and every translation of every table |
| `Sv39.PteCreateKeeps` | kernel/src/memory/page_table.rs:148-160 | so does the whole walk, whether it ends or runs out of frames half way |
| `Sv39.PteCreateFrames` | kernel/src/memory/page_table.rs:133-160 | it takes as many frames as levels are missing, and fails exactly when there are fewer |
| `Sv39.MapPageRefines` | kernel/src/memory/page_table.rs:190-209 | map changes exactly one translation, and none on failure or with empty flags; each error occurs exactly when it should |
| `Sv39.SetPageFlagsRefines` | kernel/src/memory/page_table.rs:212-225 | the same for set_flags: the page stays, the flags change, or nothing does |
| `Sv39.UnmapPageRefines` | kernel/src/memory/page_table.rs:228-242 | the same for unmap |
| `Sv39.InstallKernelTranslates` | kernel/src/memory/page_table.rs:180-187 | afterwards root indices 510 and 511 translate as the kernel's; nothing else changes in any table |
| `Sv39.InstallKernelSound` | kernel/src/memory/page_table.rs:180-187 | sharing kernel slots keeps the tables a forest |
| `Sv39.NewTableKeeps` | kernel/src/memory/page_table.rs:114-124 | a new table translates nothing and disturbs no other |
| `Sv39.RunRefinesMap` | kernel/src/memory/page_table.rs:190-242 | over every run on any number of tables, their user halves act as one finite map from (table, page) to (frame, flags), and the map decides every outcome but lack of frames |
| `Sv39.RunKeepsKernelHalf` | kernel/src/memory/page_table.rs:180-242 | no run of user-half operations, in any table, changes a kernel-half translation |
| `Sv39.RunKeepsShared` | kernel/src/memory/page_table.rs:180-242 | a kernel slot that was valid when installed is shared for good, even while kernel addresses are mapped and unmapped |
| `Sv39.EmptySlotDiverges` | kernel/src/memory/page_table.rs:180-187 | one that was empty is not: the kernel's first mapping there stays invisible to the table |
| `Sv39.PageTable.GetAddrCreate` | kernel/src/memory/page_table.rs:133-142 | the method does this to memory and keeps the frame it takes |
| `Sv39.PageTable.FindPteCreate` | kernel/src/memory/page_table.rs:148-160 | the three-level walk with creation |
| `Sv39.PageTable.FindPte` | kernel/src/memory/page_table.rs:162-178 | the walk without creation |
| `Sv39.PageTable.Map` | kernel/src/memory/page_table.rs:190-209 | the method refines the function that MapPageRefines is about, and records exactly the frames it took |
| `Sv39.PageTable.SetFlags` | kernel/src/memory/page_table.rs:212-225 | likewise |
| `Sv39.PageTable.Unmap` | kernel/src/memory/page_table.rs:228-242 | likewise |
| `Sv39.PageTable.MapKernelRegions` | kernel/src/memory/page_table.rs:180-187 | the loop installs exactly the two kernel slots |
| `Sv39.PageTable.Query` | kernel/src/memory/page_table.rs:262-264 | the method answers with the page that the last slot of the walk names, or nothing without a leaf table |
| `Sv39.QueryRightIff` | kernel/src/memory/page_table.rs:262-264 | it answers if and only if the leaf table exists, and agrees with translation if and only if the page is mapped or has no leaf table |
| `Sv39.QueryAnswersUnmapped` | kernel/src/memory/page_table.rs:190-209 | mapping a page without flags leaves it unmapped, and query answers for it |
| `Sv39.PageTable.New` | kernel/src/memory/page_table.rs:114-124 | a fresh zeroed root, or nothing when no frame is left |
| `DirEntries.EntryRoundTrip` | modified_dependencies/rust-fatfs/src/dir_entry.rs:255-434 | a written entry reads back unchanged if and only if its attributes name its own kind |
| `DirEntries.SlotRoundTrip` | modified_dependencies/rust-fatfs/src/dir_entry.rs:378-434 | rewriting a slot that was read keeps every byte but the two unknown attribute bits |
| `DirEntries.DeletedSlot` | modified_dependencies/rust-fatfs/src/dir_entry.rs:271-277 | marking a slot deleted changes its first byte only and reads back as deleted |
| `DirEntries.Writer.SerializeLfn` | modified_dependencies/rust-fatfs/src/dir_entry.rs:324-340 | the field-by-field loops produce the specified layout |
| `DirEntries.Writer.SerializeFile` | modified_dependencies/rust-fatfs/src/dir_entry.rs:255-269 | likewise for short entries |
| `DirEntries.Reader.Deserialize` | modified_dependencies/rust-fatfs/src/dir_entry.rs:378-434 | the reads decode the layout, and the end of the stream reads as an end marker |
| `LongNames.ComputeChecksum` | modified_dependencies/rust-fatfs/src/dir.rs:721-727 | the rotate-and-add checksum in wrapping u8 arithmetic |
| `LongNames.LongNameBuilder.ProcessEntry` | modified_dependencies/rust-fatfs/src/dir.rs:880-912 | no LFN entry, however corrupted, makes it index outside its buffer |
| `LongNames.LongNameBuilder.Truncate` | modified_dependencies/rust-fatfs/src/dir.rs:864-872 | drops exactly the trailing 0 and 0xFFFF units |
| `LongNames.LongNameBuilder.ValidateChksum` | modified_dependencies/rust-fatfs/src/dir.rs:914-924 | forgets the run if its checksum is not the short name's |
| `LongNames.LongNameBuilder.IntoBuf` | modified_dependencies/rust-fatfs/src/dir.rs:853-862 | the name of a run that reached index 1, else the empty name |
| `LongNames.StripIsLongestUnpadded` | modified_dependencies/rust-fatfs/src/dir.rs:864-872 | what is left is the longest prefix that does not end in padding |
| `LongNames.BuilderFollows` | modified_dependencies/rust-fatfs/src/dir.rs:880-912 | after any sequence of entries the builder holds the one descending run it ends in, or none |
| `LongNames.ReadNameMeaning` | modified_dependencies/rust-fatfs/src/dir.rs:853-924 | the result is the text of the complete run (k, k-1, ..., 1, one checksum, the short name's) that the entries end in, whatever came before; without such a run it is empty |
| `LongNames.LfnEntriesGenerator.Next` | modified_dependencies/rust-fatfs/src/dir.rs:970-1000 | yields the parts in reverse, numbered, padded, and flagged as specified |
| `LongNames.GeneratedIsCompleteRun` | modified_dependencies/rust-fatfs/src/dir.rs:953-1000 | the generated entries of up to 20 parts are a complete run |
| `LongNames.GeneratedText` | modified_dependencies/rust-fatfs/src/dir.rs:970-1000 | whose text is the padded name |
| `LongNames.NameRoundTrip` | modified_dependencies/rust-fatfs/src/dir.rs:853-1000 | every non-empty name reads back, after any entries, as itself without trailing padding units |
| `LongNames.NameSurvivesIff` | modified_dependencies/rust-fatfs/src/dir.rs:853-1000 | and unchanged if and only if its last unit is neither 0 nor 0xFFFF |
| `LongNames.GeneratedSurvivesDisk` | modified_dependencies/rust-fatfs/src/dir_entry.rs:311-415 | every generated entry also survives its 32 bytes, and is neither an end marker nor deleted |
| `ShortNames.CopyShortNamePart` | modified_dependencies/rust-fatfs/src/dir.rs:1087-1117 | the loop computes the copied bytes and the two flags |
| `ShortNames.LosslessPart` | modified_dependencies/rust-fatfs/src/dir.rs:1087-1117 | a part that fits without loss is the source in upper case |
| `ShortNames.HexRoundTrip` | modified_dependencies/rust-fatfs/src/dir.rs:1156-1234 | a printed checksum parses back to itself |
| `ShortNames.ShortNameGenerator.constructor` | modified_dependencies/rust-fatfs/src/dir.rs:1048-1072 | the last dot that is not the first character splits base and extension |
| `ShortNames.ShortNameGenerator.AddExistingName` | modified_dependencies/rust-fatfs/src/dir.rs:1119-1163 | the three collision checks |
| `ShortNames.ShortNameGenerator.GenerateName` | modified_dependencies/rust-fatfs/src/dir.rs:1174-1194 | as is, else the first free long prefix, else the first free checksum prefix, else nothing |
| `ShortNames.AddAllLong` | modified_dependencies/rust-fatfs/src/dir.rs:1131-1144 | after a scan a digit is set exactly if some name of the directory has the long form with it |
| `ShortNames.AddAllChecksum` | modified_dependencies/rust-fatfs/src/dir.rs:1146-1163 | the same for the checksum form |
| `ShortNames.LongFormTakes` | modified_dependencies/rust-fatfs/src/dir.rs:1204-1220 | the long form that is built is one that its own check recognizes |
| `ShortNames.ChecksumFormTakes` | modified_dependencies/rust-fatfs/src/dir.rs:1204-1234 | so is the checksum form |
| `ShortNames.GeneratedNameIsNew` | modified_dependencies/rust-fatfs/src/dir.rs:1119-1220 | in all three forms, after any number of retries, the name differs from every raw name in the directory |
| `ShortNames.GeneratedNameIsLive` | modified_dependencies/rust-fatfs/src/dir.rs:1048-1220 | and never begins like an end marker or a deleted slot |
| `ShortNames.RoundFailsIff` | modified_dependencies/rust-fatfs/src/dir.rs:1174-1202 | a round fails if and only if the plain forms and all nine digits of its checksum are taken |
| `ShortNames.LoopsForeverIff` | modified_dependencies/rust-fatfs/src/dir.rs:171-190 | the retry loop never ends if and only if that holds for every checksum |
| `ShortNames.FailedRoundsBound` | modified_dependencies/rust-fatfs/src/dir.rs:171-190 | k failed rounds need 9 x k entries: nine names each, disjoint between checksums |
| `ShortNames.FindEntry` | modified_dependencies/rust-fatfs/src/dir.rs:126-152 | the first matching entry, or the kind error, or a complete scan |
| `ShortNames.CheckForExistence` | modified_dependencies/rust-fatfs/src/dir.rs:166-190 | for every name: panics exactly if the name cannot be sliced at 1, and otherwise ends within n/9 + 1 rounds in a directory of n < 9 x 65536 entries, with the entry, the error, or a name that is new |
| `Directories.ScanGoesOnAlike` | modified_dependencies/rust-fatfs/src/dir.rs:614-665 | what the iterator yields from a slot on depends on its pending entries only |
| `Directories.ItemsSpan` | modified_dependencies/rust-fatfs/src/dir.rs:614-665 | an item's offset range begins where nothing was pending and ends behind its short entry |
| `Directories.PutRunWrites` | modified_dependencies/rust-fatfs/src/dir.rs:526-546 | writing a run at a cursor changes those slots only, zero-filling the clusters that are added |
| `Directories.WriteAddsItem` | modified_dependencies/rust-fatfs/src/dir.rs:513-568 | with a clean tail, iterating after write_entry yields every old item unchanged and the new one in one place; the tail stays clean |
| `Directories.RemoveTakesItem` | modified_dependencies/rust-fatfs/src/dir.rs:363-373 | remove takes away exactly the item whose slots it marks, and nothing else changes |
| `Directories.RemoveUndoesWrite` | modified_dependencies/rust-fatfs/src/dir.rs:346-568 | removing what was just written leaves the items as they were |
| `Directories.RunRefinesMap` | modified_dependencies/rust-fatfs/src/dir.rs:252-375 | over every run of creations and removals the iterator shows exactly the entries of a finite map from short names; none appears twice |
| `Directories.NewDirectoryIsEmpty` | modified_dependencies/rust-fatfs/src/dir.rs:297-297 | a zeroed cluster is an empty directory with a clean tail |
| `Dirs.Dir.ReadAt` | modified_dependencies/rust-fatfs/src/dir_entry.rs:378-386 | reads the entry of a slot, or an end marker behind the last |
| `Dirs.Dir.WriteAt` | modified_dependencies/rust-fatfs/src/dir_entry.rs:370-376 | writes the bytes of an entry to one slot |
| `Dirs.Dir.FindFreeEntries` | modified_dependencies/rust-fatfs/src/dir.rs:453-486 | the least place where the slots fit without overwriting one in use |
| `Directories.PlaceFromIsLeast` | modified_dependencies/rust-fatfs/src/dir.rs:453-486 | deleted slots in a row, or the deleted slots before the end and the space behind it; no smaller place exists |
| `Dirs.Dir.WriteLfnEntries` | modified_dependencies/rust-fatfs/src/dir.rs:526-529 | the loop writes all generated entries in order |
| `Dirs.Dir.AllocAndWriteLfnEntries` | modified_dependencies/rust-fatfs/src/dir.rs:513-531 | into the least free place for them and the short entry |
| `Dirs.Dir.WriteEntry` | modified_dependencies/rust-fatfs/src/dir.rs:533-568 | writes the named entry there, or refuses exactly the invalid names, each with the error it is documented to get, and changes nothing |
| `Dirs.ValidateLongName` | modified_dependencies/rust-fatfs/src/dir.rs:700-719 | accepts exactly names of 1 to 255 bytes of allowed characters, with the documented errors |
| `Dirs.ValidNameComesBackIff` | modified_dependencies/rust-fatfs/src/dir.rs:708-717 | of the names it accepts, exactly those ending in U+FFFF do not read back |
| `Dirs.DirIter.ReadToShortEntry` | modified_dependencies/rust-fatfs/src/dir.rs:614-664 | skips deleted and volume slots, collecting LFN entries, up to the next short entry |
| `Dirs.DirIter.ReadDirEntry` | modified_dependencies/rust-fatfs/src/dir.rs:614-665 | one call yields the next item of the scan, or the end |
| `Dirs.FindEntry` | modified_dependencies/rust-fatfs/src/dir.rs:126-152 | the first item that matches, if any does |
| `Dirs.Remove` | modified_dependencies/rust-fatfs/src/dir.rs:354-374 | marks exactly the slots of the first match, or reports why not and changes nothing |
| `Dirs.Create` | modified_dependencies/rust-fatfs/src/dir.rs:252-316 | for every name: opens the first match, refuses, panics, or adds one entry under a short name that no entry has; each outcome with the condition under which it occurs, and no change but the one entry |
| `Dirs.CheckForExistence` | modified_dependencies/rust-fatfs/src/dir.rs:166-191 | the same loop on the directory itself: the first match, its kind error, a short name that no entry has, or the panic |
| `Dirs.ValidNameAnsweredIff` | modified_dependencies/rust-fatfs/src/dir.rs:1048-1053 | a valid name gets an answer if and only if its first character is one byte long, and is then created if and only if no entry matches |
| `Dirs.NamesThatPanic` | modified_dependencies/rust-fatfs/src/dir.rs:1048-1053 | the empty name panics, whose documented answer is InvalidFileNameLength, and so does the valid name U+00E9 |
| `Renames.Rename` | modified_dependencies/rust-fatfs/src/dir.rs:412-451 | a rename within or between directories: panics, refuses, finds the same entry, moves it or loses it, each exactly when it should, with the slots of both directories |
| `Renames.MoveEntry` | modified_dependencies/rust-fatfs/src/dir.rs:433-449 | marks the old slots, then writes the new entry; an invalid name leaves the entry marked |
| `Renames.LostIff` | modified_dependencies/rust-fatfs/src/dir.rs:412-451 | the entry is lost if and only if the new name is unused and can be sliced but is not valid |
| `Renames.LostItemIsGone` | modified_dependencies/rust-fatfs/src/dir.rs:433-449 | then exactly that item is missing |
| `Renames.QuestionMarkLoses` | modified_dependencies/rust-fatfs/src/dir.rs:433-449 | a question mark is such a name |
| `Renames.RenameRefinesMap` | modified_dependencies/rust-fatfs/src/dir.rs:412-451 | a rename that succeeds replaces one entry of the map by one with the same data under the new names |
| `FatGeometry.FatIsBigEnough` | modified_dependencies/rust-fatfs/src/boot_sector.rs:536-575 | a FAT of the computed size has an entry for every cluster and two more |
| `FatGeometry.FatIsNotTooBig` | modified_dependencies/rust-fatfs/src/boot_sector.rs:897-903 | and at most two sectors' worth to spare, the fractions that FAT12 loses included |
| `FatGeometry.DataSectorsDontUnderflow` | modified_dependencies/rust-fatfs/src/boot_sector.rs:595-612 | once the volume is not "too small", subtracting one or two FATs stays above zero |
| `FatGeometry.GeometryIsRight` | modified_dependencies/rust-fatfs/src/boot_sector.rs:580-626 | all of this for whatever try_fs_geometry returns, for every size, sector size and cluster size |
| `FatGeometry.DetermineFsGeometry` | modified_dependencies/rust-fatfs/src/boot_sector.rs:637-661 | FAT32 if possible, else FAT16, else FAT12 |
| `FatGeometry.BytesPerClusterIsPow2` | modified_dependencies/rust-fatfs/src/boot_sector.rs:491-522 | the cluster size is a power of two between a sector and 32 KB, whatever the casts do |
| `FatGeometry.NextPow2IsLeast` | modified_dependencies/rust-fatfs/src/boot_sector.rs:496-496 | next_power_of_two is the least power of two not below its argument |
| `FatGeometry.OneBitIff` | modified_dependencies/rust-fatfs/src/boot_sector.rs:128-146 | count_ones is 1 exactly for powers of two |
| `FatGeometry.Fat32IsLarge` | modified_dependencies/rust-fatfs/src/boot_sector.rs:726-736 | a FAT32 volume has at least 0x10000 sectors, so total_sectors_16 is 0 |
| `FatGeometry.BpbAgrees` | modified_dependencies/rust-fatfs/src/boot_sector.rs:337-384 | the accessors recompute from the fields what the geometry was computed from |
| `FatGeometry.FormattedValidates` | modified_dependencies/rust-fatfs/src/boot_sector.rs:304-762 | for all options and sizes: exactly when format_bpb panics, exactly when it fails, and exactly when its result fails or overflows in validate |
| `FatGeometry.ClusterSmallerThanSector` | modified_dependencies/rust-fatfs/src/boot_sector.rs:595-613 | a cluster smaller than a sector panics with 100 sectors, and is refused with 5 |
| `FatGeometry.LargestVolumeOverflows` | modified_dependencies/rust-fatfs/src/boot_sector.rs:295-318 | the largest volume with 8 KB clusters is formatted and overflows in validate |
| `FatGeometry.Fat12FitsIff` | modified_dependencies/rust-fatfs/src/boot_sector.rs:580-626 | for every cluster size: FAT12 fits from 42 sectors to the last size with at most 4084 clusters |
| `FatGeometry.Fat16FitsIff` | modified_dependencies/rust-fatfs/src/boot_sector.rs:580-626 | and FAT16 from eight sectors later on |
| `FatGeometry.DefaultFormat` | modified_dependencies/rust-fatfs/src/boot_sector.rs:491-761 | default options and 512-byte sectors: which of the 2^32 sizes fail, and that all others get the expected type and pass validate |
| `FatGeometry.DefaultCluster` | modified_dependencies/rust-fatfs/src/boot_sector.rs:480-522 | the cluster size chosen for every size |
| `Streams.RawStream.WriteAll` | dependencies/core2/src/io/traits.rs:717-732 | repeated short writes amount to one overwrite; it fails if and only if there is no room for all, after writing what there was room for |
| `Streams.OverwriteMore` | modified_dependencies/fscommon/src/buf_stream.rs:33-39 | two adjacent writes are one write of both |
| `Streams.BufStream.FlushBuf` | modified_dependencies/fscommon/src/buf_stream.rs:33-39 | succeeds if and only if what is pending fits; then the visible stream is as it was, and the inner one equal to it |
| `Streams.FailedFlushKeepsIff` | modified_dependencies/fscommon/src/buf_stream.rs:33-39 | a flush that fails keeps the visible stream if and only if it could not write anything |
| `Streams.FailedFlushRepeats` | modified_dependencies/fscommon/src/buf_stream.rs:33-39 | two bytes with room for one show the first twice |
| `Streams.BufStream.MakeReader` | modified_dependencies/fscommon/src/buf_stream.rs:41-49 | switching to read mode keeps the visible contents and position |
| `Streams.BufStream.MakeWriter` | modified_dependencies/fscommon/src/buf_stream.rs:51-60 | so does switching to write mode, by stepping back over what was read ahead; it cannot fail |
| `Streams.BufStream.FillBuf` | modified_dependencies/fscommon/src/buf_stream.rs:62-70 | so does filling the buffer |
| `Streams.BufStream.ReadBytes` | modified_dependencies/fscommon/src/buf_stream.rs:89-102 | a read, buffered or bypassing, is a read of the visible stream |
| `Streams.BufStream.WriteBytes` | modified_dependencies/fscommon/src/buf_stream.rs:106-118 | a write, buffered or bypassing, is a write of the visible stream |
| `Streams.BufStream.Flush` | modified_dependencies/fscommon/src/buf_stream.rs:120-123 | after it the inner stream holds exactly the visible contents |
| `Streams.BufStream.SeekTo` | modified_dependencies/fscommon/src/buf_stream.rs:127-138 | a seek of the visible stream; it fails exactly for a negative target or a flush that does not fit, and a failing one keeps the position if and only if the stream was writing or nothing was read ahead |
| `Streams.FailedSeekSkips` | modified_dependencies/fscommon/src/buf_stream.rs:127-138 | a refused seek that skips a byte |
| `Streams.RunBuffered` | modified_dependencies/fscommon/src/buf_stream.rs:88-139 | any sequence of successful calls is a run of one plain stream |
| `Streams.RunPlain` | modified_dependencies/fscommon/src/buf_stream.rs:88-139 | and so is the same sequence on the plain stream itself |
| `Streams.RunsAgree` | modified_dependencies/fscommon/src/buf_stream.rs:88-139 | two such runs that move as many bytes agree on every byte, position and the contents |
| `Streams.StreamSlice.ReadBytes` | modified_dependencies/fscommon/src/stream_slice.rs:36-41 | a read of the window as a stream of its own |
| `Streams.StreamSlice.WriteBytes` | modified_dependencies/fscommon/src/stream_slice.rs:45-50 | a write of the window, of no byte exactly when the window or the storage is full or none is given; nothing outside it changes |
| `Streams.StreamSlice.SeekTo` | modified_dependencies/fscommon/src/stream_slice.rs:58-72 | accepts exactly positions in the window, its end included; refused, it changes nothing |
| `InitStacks.PushExtends` | kernel/src/loaders/init_stack.rs:34-43 | a push holds what was pushed, aligned, and overwrites nothing that was pushed before |
| `InitStacks.PushStrHolds` | kernel/src/loaders/init_stack.rs:45-49 | the returned pointer leads to the string and its NUL |
| `InitStacks.PushAuxJoins` | kernel/src/loaders/init_info.rs:50-56 | the pairs join without gaps, AT_RANDOM replaced by its pointer |
| `InitStacks.WordsAreLaidOut` | kernel/src/loaders/init_info.rs:49-64 | from sp: argc, argv, NULL, env pointers, NULL, pairs, (0, 0), contiguous and aligned |
| `InitStacks.StringsAreLaidOut` | kernel/src/loaders/init_info.rs:31-47 | every pointer leads to its own string, and the random position to its 16 bytes |
| `InitStacks.AuxPairsAreAll` | kernel/src/loaders/init_info.rs:50-56 | a reader finds every pair but one with a null key, in descending order |
| `InitStacks.UpToNulIdentityIff` | kernel/src/loaders/init_stack.rs:45-49 | a string reads back unchanged if and only if it holds no NUL |
| `InitStacks.SerializeReadsBack` | kernel/src/loaders/init_info.rs:28-66 | whenever it fits, a reader that starts at sp gets back all arguments, environment strings, pairs and random bytes |
| `InitStacks.InitStack.PushSlice` | kernel/src/loaders/init_stack.rs:34-43 | the in-place copy refines the push on values, and the assertion trips exactly when it does not fit |
| `InitStacks.SerializeInfo` | kernel/src/loaders/init_info.rs:28-66 | the method builds that stack, whatever the uninitialized buffer held |
| `Pipes.RingBuffer.Read` | kernel/src/file/pipe.rs:35-60 | delivers the oldest bytes, as many as there are |
| `Pipes.RingBuffer.Write` | kernel/src/file/pipe.rs:62-85 | accepts as many bytes as fit, behind all others |
| `Pipes.WriteStraight` | kernel/src/file/pipe.rs:70-72 | a write that does not reach the limit appends to the queue |
| `Pipes.WriteAround` | kernel/src/file/pipe.rs:73-82 | so does one that goes around it, also from an end that rests at the limit |
| `Pipes.ReadAround` | kernel/src/file/pipe.rs:47-58 | a read around the limit takes the front of the queue |
| `Pipes.RunOthers` | kernel/src/file/pipe.rs:35-85 | in any interleaving the delivered bytes are a prefix of the accepted ones, and at most the limit lies between them |
| `Pipes.Pipe.Read` | kernel/src/file/pipe.rs:129-157 | with other tasks at work in between, returns exactly what was delivered to it; its length is exactly the least of what was asked for and what up to three attempts find |
| `Pipes.Pipe.Write` | kernel/src/file/pipe.rs:159-198 | accepts a prefix of the bytes, exactly as long as the room that up to three attempts find |
| `Pipes.ShortThoughAlive` | kernel/src/file/pipe.rs:146-154 | a reader and a writer that come back empty-handed with both ends alive, one suspension too early |

## Left out

- `RwLock` and `TicketMutex`: memory orderings weaker than sequential consistency, wrap-around of the counters, spin hints, and the interrupt counting around guards; `leak`, `force_read_decrement` and `force_write_unlock`, which break the accounting on purpose.
- `SpinMutex` and `MCSLock`: one flag each.
- BitAlloc.Node.Insert: excludes empty ranges, which the source does not handle (`end - 1` underflows, and bit ranges must not be empty).
- BitAlloc.Node.AllocContiguous: alignments of 64 bits and more, where the source's shift is not defined.
- Page table: superpages (the code never makes one and treats every valid inner entry as a pointer), freeing the frames of a dropped table, TLB and satp writes, `force_write`, and addresses that are not canonical (bits above 38 are ignored, as in the code).
- `MemorySet`, `VmArea`, `FdManager`: they rest on crates whose source is not part of the repository.
- FAT: cluster allocation and chains, `FileSystem`, `File`, disk errors, directories of a fixed size that run full, dates and times, OEM code pages, and case folding. Whether an entry matches a name is a parameter.
- Dirs.Create: requires fewer than 9 x 65536 entries, the bound below which ShortNames.FailedRoundsBound shows that the loop ends.
- Dirs.Remove: freeing the clusters of the file, and the recursion over path components.
- Renames.Rename: the recursion over path components; it requires fewer than 9 x 65536 entries in the target, as Dirs.Create does. Two objects for one directory are one object here.
- `BiosParameterBlock` serialization, the boot code, and volume labels.
- Streams: 64-bit overflow of offsets, and inner streams that fail for other reasons than lack of room.
- Streams.StreamSlice.SeekTo: the casts between i64 and u64 for offsets of 2^63 and more.
- InitStacks: real randomness; the two words are constants in the source as well.
- Pipe: the page-by-page copy inside the in-memory file, which is a byte sequence here, and the reference counts, which are parameters.
- Signals, process wait, sockets, system calls, drivers, ELF loading, assembly.
