# Layout, files and patches: a model of `elfio.hpp`, `Stub`/`StubExt` and the trash paths

The repository bundles two helpers for its unit tests: ELFIO, which reads and writes ELF files, and a code patcher,
which replaces a function of a living process by overwriting its first bytes. This project models both, and one string
conversion of the library itself, and proves what they keep.

**ELF files (`3rdparty/testutils/cpp-stub/elfio.hpp`).** `save` is an allocator: it orders the segments, walks over
their sections with one file position, pads, assigns addresses and offsets, then places the sections that no segment
lists and the section header table, and writes everything by seeking.

- `Words`, `LayoutModel`: 64-bit wrap-around arithmetic, and what the three passes compute, over values. The file
  position is kept as an unbounded number of which the program sees the residue modulo 2^64; a log records every
  assignment of a file range. Every decision looks only at what the program looks at.
- `LayoutFacts`, `SegmentFacts`, `SelfPlaced`, `SegmentResult`, `LayoutSteps`, `LayoutTheorems`, `SectionAlignment`,
  `Congruence`: the invariant of the passes and its consequences for a finished file.
- `MixedCoverage`, `SharedMemory`: the exact laws for the file image and the memory size of one segment, whoever placed
  its sections; `Turns` carries them to the finished file, `ObjectCoverage` reads coverage off the object alone.
- `LayoutSuccess`, `LoadableLayout`, `LaminarLayout`: when layout succeeds. `LayoutLimits` lays out objects that miss a
  property. `Resave`: laying out a finished file again changes nothing.
- `OwnSizes`, `EmptySegments`, `Gaps`: the exact sizes of segments, with and without sections, and that no bytes are
  skipped needlessly.
- `SegmentOrder`: the rotating worklist of `get_ordered_segments`.
- `ElfFile`: the classes `section_impl`, `segment_impl` and `elfio` with the loops of the program; every method is
  proved equal to the function of `LayoutModel` or `SegmentOrder` that specifies it.
- `SymbolTable`, `HashFunction`, `SymbolHash`, `StringTable`, `SectionData`, `Notes`, `ModInfo`: the section accessors.
- `Bytes`, `FileImage`, `FileLoad`, `FileBytes`, `SaveFile`, `SavedHeaders`, `Reload`: byte order, header structures, the
  bytes that `save` writes and what `load` reads. `FileBytes` names literal positions. `SaveFile` puts layout, writing and
  reading together, `SavedHeaders` says what is left in the headers, `Reload` adds the section lists and the data of
  segments, and saving a loaded file again.
- `Validation`: the overlap check `validate`.

**Replacing functions (`3rdparty/testutils/cpp-stub/stub.h`, `3rdparty/testutils/stub-ext/`).** `CodePatcher` is the
state machine over the code bytes, the saved bytes and the wrapper registry; `StubExt` holds the classes.

**Trash paths (`src/dfm-io/dfm-io/dfmio_utils.cpp`).** `TrashPath`.

Where the code does not do what one would expect of it, the model follows the code and states the exact condition:

- `get_ordered_segments` moves segments at file offset 0 to the front, but steps over a segment in front whose offset was
  never set (`ZerosArePrefixExactly`); only a list rearranged through its iterators has one there.
- Bytes skipped in front of a section without file bytes do not count towards the segment's file size, so a file-backed
  section behind it ends up outside (`CoveredExactly`).
- A segment that adds sections to those of another one counts their sizes, not the distance between them, so it may end
  in front of its last section (`SegmentCoveredExactly`).
- A segment at offset 0 whose sections another one placed starts with the file position as both sizes; a section without
  file bytes then adds a distance that can be negative, so the segment may claim less memory than file bytes
  (`SharedMemoryExactly`).
- The padding in front of a segment loses the loader's congruence for alignments above 2^63 exactly when the sum inside
  it wraps (`PaddingExact`).
- Layout gives up only over a preset address that lies behind the bytes already placed (`PlaceOneFails`).
- `add_note` with a descriptor size but no descriptor writes a header that promises more bytes than follow; a fresh
  accessor then misses the next note (`ReaderFindsWriter`).
- `validate` uses `SHT_NOBITS` as a bit mask, so it skips dynamic symbol tables and others (`OverlapReportedExactly`),
  and it errs on sections that end at or behind 2^64 (`EndpointsRightExactly`).
- `Stub` takes the short jump up to a distance of 2^32, twice its reach (`JumpReachesExactly`).
- `bindPathTransform` replaces every occurrence of the device, not only the leading one (`OnlyPrefixRewritten`).

## Model

| member | source | states |
|---|---|---|
| Congruence.PaddingExact | 3rdparty/testutils/cpp-stub/elfio.hpp:2328-2338 | the wrap-around padding makes the segment's file position congruent to its virtual address modulo the alignment if and only if alignment plus residue difference stays below 2^64 |
| Congruence.PaddingUpTo63 | 3rdparty/testutils/cpp-stub/elfio.hpp:2328-2338 | the congruence holds for every alignment up to 2^63, every address and every position |
| LayoutLimits.PaddingCanFail | 3rdparty/testutils/cpp-stub/elfio.hpp:1802-1827 | a concrete object, laid out successfully from behind its headers, whose segment has an alignment above 2^63 and a file offset that is not congruent to its address |
| LayoutFacts.AppendKeepsSound | 3rdparty/testutils/cpp-stub/elfio.hpp:2407-2420 | giving a free section a range behind the file position keeps the layout invariant: ranges in a disjoint chain, each section at most once, headers equal to the log, nothing placed ever moves |
| LayoutFacts.PlaceUpToSound | 3rdparty/testutils/cpp-stub/elfio.hpp:2344-2421 | the whole inner loop keeps the invariant, moves no section placed before, only goes forward, and leaves every listed section marked |
| SegmentFacts.StampCorresponds | 3rdparty/testutils/cpp-stub/elfio.hpp:2355-2416 | a section placed with a preset address (non-empty, file-backed) or without address satisfies sh_offset - p_offset = sh_addr - p_vaddr in the width of the class |
| SegmentFacts.PlaceUpToMatches | 3rdparty/testutils/cpp-stub/elfio.hpp:2344-2421 | the correspondence holds for all sections that a segment places, and later placements do not disturb it |
| SelfPlaced.PlaceUpToTight | 3rdparty/testutils/cpp-stub/elfio.hpp:2388-2404 | when a segment places all its sections itself, its running file size spans every file-backed one if and only if no bytes were skipped in front of a section without file bytes that stands before a file-backed one |
| SelfPlaced.PlaceUpToInOrder | 3rdparty/testutils/cpp-stub/elfio.hpp:2375-2386 | nothing is skipped in front of a section without file bytes that has an address or no alignment, so such sections may stand anywhere in the list |
| SelfPlaced.PlaceUpToAmple | 3rdparty/testutils/cpp-stub/elfio.hpp:2388-2404 | with SHF_ALLOC sections the memory size is at least the file size, whatever the order of the list |
| SelfPlaced.PlaceUpToRoomy | 3rdparty/testutils/cpp-stub/elfio.hpp:2388-2404 | when all sections count towards memory, the running memory size reaches the end of every one, with or without file bytes |
| SegmentFacts.PlaceUpToPlaced | 3rdparty/testutils/cpp-stub/elfio.hpp:2382-2402 | a segment over sections that others placed moves nothing, cannot fail, and ends with the file size that reaches the end of its last file-backed section |
| SegmentFacts.PlacedMemoryUpTo | 3rdparty/testutils/cpp-stub/elfio.hpp:2312-2402 | a segment over sections that others placed, its NOBITS sections at or behind the file-backed end in front of them, claims at least as much memory as file bytes if it starts with both sizes 0 or lists a file-backed section in front of the first NOBITS one; `PlaceUpToSurplus` is the exact law for all |
| SharedMemory.PlaceUpToSurplus | 3rdparty/testutils/cpp-stub/elfio.hpp:2382-2404 | for every segment over sections that others placed in ascending order, started with equal sizes: memory size minus file size is, modulo 2^64, the sum of how far each NOBITS section of the memory image reaches beyond the file-backed end in front of it |
| SharedMemory.EnoughWithoutWrap | 3rdparty/testutils/cpp-stub/elfio.hpp:2430-2431 | as long as nothing wraps, memory size at least file size means that this sum is not negative or the old memory size is large enough |
| Turns.SharedMemoryExactly | 3rdparty/testutils/cpp-stub/elfio.hpp:1802-1827 | in the finished file, a segment whose sections others placed claims at least as much memory as file bytes if and only if that sum, taken from its start or (at offset 0) from the file position at its turn, says so |
| LayoutLimits.ZeroSegmentClaimsLess | 3rdparty/testutils/cpp-stub/elfio.hpp:1802-1827 | a concrete object whose layout succeeds with a segment at offset 0 of 192 file bytes and 84 bytes of memory |
| SegmentResult.SegmentDoneLater | 3rdparty/testutils/cpp-stub/elfio.hpp:2304-2434 | nothing that the later steps of the layout do undoes what holds for a finished segment |
| LayoutSteps.LayoutSegmentKeeps | 3rdparty/testutils/cpp-stub/elfio.hpp:2304-2434 | laying out one segment keeps the invariant, never moves the file position back, leaves the other segments alone, and achieves correspondence, loader congruence and coverage for this one |
| LayoutTheorems.FirstPassStep | 3rdparty/testutils/cpp-stub/elfio.hpp:2304-2434 | one more segment of the worklist: all finished segments stay finished, the others stay untouched |
| LayoutTheorems.SegmentsUpToKeep | 3rdparty/testutils/cpp-stub/elfio.hpp:2296-2437 | the same for the whole first pass, for any worklist order |
| LayoutTheorems.LoosePaddingAligns | 3rdparty/testutils/cpp-stub/elfio.hpp:2260-2265 | a section outside all segments starts at a multiple of its alignment |
| LayoutTheorems.SecondPassStep | 3rdparty/testutils/cpp-stub/elfio.hpp:2256-2275 | placing a section outside all segments keeps the invariant and everything the first pass achieved |
| LayoutTheorems.LayoutKeeps | 3rdparty/testutils/cpp-stub/elfio.hpp:1825-1827 | the three passes together end in the invariant with nothing left to place, behind the headers, with the section header table at a multiple of four |
| LayoutTheorems.FileLayoutKeeps | 3rdparty/testutils/cpp-stub/elfio.hpp:1802-1827 | the same for the order that `get_ordered_segments` chooses |
| LayoutTheorems.EverySectionOnce | 3rdparty/testutils/cpp-stub/elfio.hpp:1825-1827 | a successful layout gives every section its place exactly once, except precisely the null sections that a segment lists |
| LayoutTheorems.LayoutRangesApart | 3rdparty/testutils/cpp-stub/elfio.hpp:1802-1827 | ELF header with program headers, the bytes of every section, and the section header table occupy pairwise disjoint ranges, if the file end fits the class |
| Gaps.NoNeedlessGap | 3rdparty/testutils/cpp-stub/elfio.hpp:1802-1827 | a finished file skips no more bytes than it must: less than the alignment in front of a freely placed section and at the start of a segment, none in front of an addressed section without file bytes, fewer than four in front of the section header table, nothing behind the headers or elsewhere except up to a preset address |
| Gaps.LooseKeepsAddress | 3rdparty/testutils/cpp-stub/elfio.hpp:2256-2275 | a section outside all segments is given an offset and nothing else |
| LayoutTheorems.LayoutSegmentsDone | 3rdparty/testutils/cpp-stub/elfio.hpp:2296-2437 | every segment of the finished file: address/offset correspondence, memory size never smaller than before (64-bit), p_offset congruent to p_vaddr modulo p_align, the exact condition for covering its file-backed sections when it placed them all, file size at most memory size when it placed them all or others did (`SharedMemoryExactly` says exactly when for the latter; here NOBITS sections lie behind and, at offset 0, a file-backed one leads), memory image covering all sections it placed |
| LayoutTheorems.CoveredExactly | 3rdparty/testutils/cpp-stub/elfio.hpp:1802-1827 | a segment that placed all its sections itself covers the file-backed ones if and only if no gap was left for a section without file bytes in front of one; always when those sections came with an address, as in every loaded file, or without alignment |
| MixedCoverage.RunReaches | 3rdparty/testutils/cpp-stub/elfio.hpp:2344-2433 | for any segment, whoever placed its sections, the running file size reaches every listed file-backed section if and only if the last one decides so: placed by another segment, none ends behind it; placed by this one, it and those in front of it go on without a gap where the last section of another segment ends |
| MixedCoverage.CoversTurn | 3rdparty/testutils/cpp-stub/elfio.hpp:2304-2434 | the same for the file image that the segment gets at its turn, with the start in front of all its sections |
| Turns.SegmentCoveredExactly | 3rdparty/testutils/cpp-stub/elfio.hpp:1802-1827 | in the finished file every segment with distinct sections covers the file-backed ones if and only if it starts in front of them and the last one decides so |
| OwnSizes.PlaceUpToCounted | 3rdparty/testutils/cpp-stub/elfio.hpp:2388-2404 | a run that places all sections of a segment adds size and padding of every section with file bytes to the file size, and of every SHF_ALLOC (0x2) section to the memory size, except thread-local (0x400) ones of type 8 outside a segment of type 7 |
| OwnSizes.OwnSizesExactly | 3rdparty/testutils/cpp-stub/elfio.hpp:1802-1827 | in the finished file, file size and memory size of a segment that placed all its sections are exactly these sums (plus the bytes in front of it at offset 0), the memory size the larger of this and the old one |
| ObjectCoverage.ObjectCovered | 3rdparty/testutils/cpp-stub/elfio.hpp:1802-1827 | read off the object alone: with nested or disjoint ascending lists, and sections without file bytes in front of file-backed ones with an address or no alignment, every segment covers its file-backed sections, whoever places them |
| LayoutTheorems.RaisedCovers | 3rdparty/testutils/cpp-stub/elfio.hpp:2281-2293 | the alignment of a segment ends as the maximum of its own and its sections' |
| EmptySegments.EmptyTurn | 3rdparty/testutils/cpp-stub/elfio.hpp:2311-2342 | a segment of type 6 (PT_PHDR) without sections gets the end of the file header as offset and e_phentsize * e_phnum as sizes; one of any other type gets offset 0 or the file position, and no file bytes; a larger memory size given before stays |
| EmptySegments.EmptySegment | 3rdparty/testutils/cpp-stub/elfio.hpp:1802-1827 | the same in the finished file, with the file position at the segment's turn |
| EmptySegments.HeaderSegmentHoldsTable | 3rdparty/testutils/cpp-stub/elfio.hpp:1802-1831 | in the saved object such a segment starts at e_phoff, and a file position lies in its file image if and only if it lies in a program header that `save` writes (for entries of the structure's size; larger ones leave gaps inside) |
| SectionAlignment.FreeSectionsAreAligned | 3rdparty/testutils/cpp-stub/elfio.hpp:2260-2386 | in the finished file every section whose position was free (no address preset, or in no segment) has an offset that is a multiple of its alignment |
| LayoutSuccess.PlaceOneFails | 3rdparty/testutils/cpp-stub/elfio.hpp:2357-2374 | layout gives up over a section if and only if it has file bytes and a preset address, is not placed yet, and lies nearer to the segment's address than the file position to the segment's start |
| LayoutSuccess.UnpinnedLayoutSucceeds | 3rdparty/testutils/cpp-stub/elfio.hpp:1825-1827 | layout succeeds for all objects in which no segment lists a file-backed section with a preset address |
| LoadableLayout.PlaceUpToAhead | 3rdparty/testutils/cpp-stub/elfio.hpp:2357-2374 | a segment that places all its sections itself does not fail when their preset addresses ascend without overlap from its own address |
| LoadableLayout.AllOrNone | 3rdparty/testutils/cpp-stub/elfio.hpp:2211-2251 | with nested or disjoint section lists, when a segment's turn comes either all its sections were placed before or none |
| LoadableLayout.ZeroTakenFirst | 3rdparty/testutils/cpp-stub/elfio.hpp:2220-2251 | a segment at file offset 0 that no other one contains is taken first of all, so its sections start directly behind the headers |
| LoadableLayout.LoadableLayoutSucceeds | 3rdparty/testutils/cpp-stub/elfio.hpp:1825-1827 | layout succeeds for all objects, loaded files included, whose sections have ascending addresses within each segment (behind the headers at file offset 0) and whose segments are nested or apart |
| LaminarLayout.PlaceUpToExactly | 3rdparty/testutils/cpp-stub/elfio.hpp:2357-2374 | a segment that places all its sections, each with an address, does not fail if and only if their distances from its address ascend behind what the sections in front of them take |
| LaminarLayout.LaminarLayoutExactly | 3rdparty/testutils/cpp-stub/elfio.hpp:1825-1827 | for nested or disjoint segments over sections with addresses, layout succeeds if and only if the distances ascend in every segment that places its sections |
| LoadableLayout.LoadedFileIsLoadable | 3rdparty/testutils/cpp-stub/elfio.hpp:1754-1787 | a concrete loaded executable that meets these conditions |
| LayoutLimits.NobitsInTheMiddle | 3rdparty/testutils/cpp-stub/elfio.hpp:1802-1827 | a concrete object whose layout succeeds with a gap in front of a section without file bytes and a file-backed section behind p_offset + p_filesz |
| LayoutLimits.SharedThenNew | 3rdparty/testutils/cpp-stub/elfio.hpp:1802-1827 | a concrete object with two overlapping segments, the second of which misses a section although layout succeeds: it starts early enough, and its last section did not go on where the placed one ends |
| SegmentOrder.IncludesIsInclusion | 3rdparty/testutils/cpp-stub/elfio.hpp:2195-2208 | on ascending lists the subset test decides inclusion of the section lists, repetitions counted |
| SegmentOrder.RotationApproaches | 3rdparty/testutils/cpp-stub/elfio.hpp:2233-2249 | each time the front segment goes back, the first segment with the most sections comes one step nearer to the front: the loop ends |
| SegmentOrder.Drain | 3rdparty/testutils/cpp-stub/elfio.hpp:2233-2251 | the worklist loop terminates and returns a permutation of the worklist |
| SegmentOrder.DrainOrders | 3rdparty/testutils/cpp-stub/elfio.hpp:2233-2251 | no segment comes before one that lists all its sections and more |
| SegmentOrder.OrderedIsComplete | 3rdparty/testutils/cpp-stub/elfio.hpp:2211-2251 | the order contains every segment exactly once and respects the subset test |
| SegmentOrder.ContainersFirst | 3rdparty/testutils/cpp-stub/elfio.hpp:2195-2251 | with ascending section lists no segment comes before one whose list strictly includes its own |
| SegmentOrder.OrderIsKept | 3rdparty/testutils/cpp-stub/elfio.hpp:2211-2251 | where no segment contains another and none was set to offset 0, the order is that of the file |
| SegmentOrder.ZerosFront | 3rdparty/testutils/cpp-stub/elfio.hpp:2220-2231 | after the swap pass a front part holds only segments with offset 0, and every segment whose offset was set to 0 is in it |
| SegmentOrder.ZerosArePrefixExactly | 3rdparty/testutils/cpp-stub/elfio.hpp:2220-2231 | the segments set to offset 0 end as a prefix of the worklist if and only if no swap stepped over a segment whose offset was never set |
| SegmentOrder.ZerosArePrefix | 3rdparty/testutils/cpp-stub/elfio.hpp:2220-2231 | they are a prefix whenever no segment without an offset stands before one at offset 0: for loaded files, also with new segments added behind |
| SegmentOrder.RearrangedSegmentStaysInFront | 3rdparty/testutils/cpp-stub/elfio.hpp:2556-2565 | a caller that rearranges the list through its iterators can end with a new segment in front of one at offset 0 |
| ElfFile.Section.SetAddress | 3rdparty/testutils/cpp-stub/elfio.hpp:1272-1277 | the address is kept in the width of the class and the section counts as having one |
| ElfFile.Section.SetOffset | 3rdparty/testutils/cpp-stub/elfio.hpp:1344 | the offset is kept in the width of the class and nothing else changes |
| ElfFile.Segment.AddSectionIndex | 3rdparty/testutils/cpp-stub/elfio.hpp:1523-1531 | the section is listed last, a larger alignment replaces the segment's in the width of the class, and the number of listed sections is returned in 16 bits |
| ElfFile.Segment.SetOffset | 3rdparty/testutils/cpp-stub/elfio.hpp:1551-1556 | the offset is kept in the width of the class and the segment counts as having one |
| ElfFile.Elfio.IsSectionWithoutSegment | 3rdparty/testutils/cpp-stub/elfio.hpp:2181-2192 | answers exactly whether no segment lists the section |
| ElfFile.Elfio.IsSubsequenceOf | 3rdparty/testutils/cpp-stub/elfio.hpp:2195-2208 | answers whether the second segment has more sections and includes the first one's |
| ElfFile.Elfio.BringZerosToFront | 3rdparty/testutils/cpp-stub/elfio.hpp:2213-2231 | the in-place swap pass computes the worklist for which `ZerosFront` and `ZerosArePrefix` are proved |
| ElfFile.Elfio.HasToWait | 3rdparty/testutils/cpp-stub/elfio.hpp:2237-2242 | answers exactly whether a waiting segment contains the front one |
| ElfFile.Elfio.GetOrderedSegments | 3rdparty/testutils/cpp-stub/elfio.hpp:2211-2251 | the loop ends with the order for which `OrderedIsComplete` is proved |
| ElfFile.Elfio.PaddingBefore | 3rdparty/testutils/cpp-stub/elfio.hpp:2355-2386 | the padding, or failure exactly when the required distance lies behind the file position |
| ElfFile.Elfio.PlaceSection | 3rdparty/testutils/cpp-stub/elfio.hpp:2344-2421 | one iteration of the inner loop changes the objects and the position as the step that keeps the invariant |
| ElfFile.Elfio.StartSegment | 3rdparty/testutils/cpp-stub/elfio.hpp:2305-2342 | the four ways in which a segment gets its start position and initial sizes |
| ElfFile.Elfio.PlaceSections | 3rdparty/testutils/cpp-stub/elfio.hpp:2344-2421 | the inner loop over the objects computes the run that `PlaceUpToSound` is about, and gives up exactly when that run does |
| ElfFile.Elfio.FinishOneSegment | 3rdparty/testutils/cpp-stub/elfio.hpp:2423-2433 | file size and start position are stored, the memory size only when the new one is larger |
| ElfFile.Elfio.LayoutOneSegment | 3rdparty/testutils/cpp-stub/elfio.hpp:2304-2434 | one iteration of the outer loop is the step that `LayoutSegmentKeeps` is about |
| ElfFile.Elfio.LayoutSegmentsAndTheirSections | 3rdparty/testutils/cpp-stub/elfio.hpp:2296-2437 | the first pass takes the segments in the computed order and fails exactly when one of them fails |
| ElfFile.Elfio.LayoutSectionsWithoutSegments | 3rdparty/testutils/cpp-stub/elfio.hpp:2254-2278 | the second pass over the objects, which cannot fail |
| ElfFile.Elfio.LayoutSectionTable | 3rdparty/testutils/cpp-stub/elfio.hpp:2440-2447 | the table goes to the next multiple of four and the header field tells where |
| ElfFile.Elfio.CalcSegmentAlignment | 3rdparty/testutils/cpp-stub/elfio.hpp:2281-2293 | every segment's alignment is raised to the one that `RaisedCovers` describes, nothing else changes |
| ElfFile.Elfio.LayoutFile | 3rdparty/testutils/cpp-stub/elfio.hpp:1802-1827 | the layout part of `save` on the objects ends in the state, or the failure, about which the layout theorems speak |
| SymbolTable.RInfoRoundTrip | 3rdparty/testutils/cpp-stub/elfio.hpp:846-853 | r_info gives back the relocation type always, and the symbol index if and only if it fits the field of the class |
| SymbolTable.RInfoParts | 3rdparty/testutils/cpp-stub/elfio.hpp:846-853 | r_info is the symbol index times 2^32 (64-bit) or 2^8 (32-bit) plus the type, both ways |
| SymbolTable.LocalExactly | 3rdparty/testutils/cpp-stub/elfio.hpp:813-815 | a symbol is local if and only if its info byte is below 16, and one built from binding and type if and only if the binding is 0 |
| SymbolTable.RelocationSection.GetEntry | 3rdparty/testutils/cpp-stub/elfio.hpp:3248-3280 | succeeds exactly for existing entries and unpacks them; without explicit addend the addend is 0 |
| SymbolTable.RelocationSection.SetEntry | 3rdparty/testutils/cpp-stub/elfio.hpp:3350-3382 | rewrites that entry and no other, and fails exactly for entries that do not exist |
| SymbolTable.RelocationSection.SwapSymbols | 3rdparty/testutils/cpp-stub/elfio.hpp:3456-3471 | every entry exchanges its reference between the two symbols, all other entries stay |
| SymbolTable.FollowSwapFollows | 3rdparty/testutils/cpp-stub/elfio.hpp:3456-3471 | an entry that follows a swap refers to the same symbol record as before, with type, offset and addend unchanged |
| SymbolTable.AllFollowSwap | 3rdparty/testutils/cpp-stub/elfio.hpp:3456-3471 | one swap keeps the meaning of all entries |
| SymbolTable.SymbolSection.SwapOnce | 3rdparty/testutils/cpp-stub/elfio.hpp:2968-3003 | one round of the partition: a local symbol joins the front part, or the table is partitioned |
| SymbolTable.SymbolSection.ArrangeLocalSymbols | 3rdparty/testutils/cpp-stub/elfio.hpp:2957-3008 | ends with entry 0 in place, the rest permuted, all symbols with info below 16 before all others, sh_info the first of the others, and every relocation entry still referring to its symbol |
| HashFunction.HashIsSmall | 3rdparty/testutils/cpp-stub/elfio.hpp:1024-1036 | the hash of every string is below 2^28 |
| HashFunction.ElfHash | 3rdparty/testutils/cpp-stub/elfio.hpp:1024-1036 | the loop hashes the C string in front of the first NUL with the step that `StepIsRound` describes, below 2^28 |
| HashFunction.StepIsRound | 3rdparty/testutils/cpp-stub/elfio.hpp:1028-1033 | one round is sixteen times the hash plus the byte in 32 bits, of which the low 28 bits stay, and the four above are xored into bits 4 to 7 |
| HashFunction.HashIsPositionalExactly | 3rdparty/testutils/cpp-stub/elfio.hpp:1024-1036 | the hash is the sum of the bytes as digits to the base 16 if and only if that sum is below 2^28 |
| HashFunction.ShortNames | 3rdparty/testutils/cpp-stub/elfio.hpp:1024-1036 | so for every name of at most six bytes below 240 |
| HashFunction.HashIsInteger | 3rdparty/testutils/cpp-stub/elfio.hpp:1024-1036 | for every name shifts, masks and xors compute the hash in whole numbers |
| SymbolHash.HashedLookup | 3rdparty/testutils/cpp-stub/elfio.hpp:2663-2682 | the walk through the hash table terminates on linked tables and ends where `HashedIsExact` says |
| SymbolHash.LinearLookup | 3rdparty/testutils/cpp-stub/elfio.hpp:2683-2694 | the scan returns the first symbol of that name |
| SymbolHash.HashedIsExact | 3rdparty/testutils/cpp-stub/elfio.hpp:2663-2682 | on a well-formed table a non-empty name is found if and only if a symbol has it, and the symbol found has it |
| SymbolHash.LookupsAgree | 3rdparty/testutils/cpp-stub/elfio.hpp:2652-2696 | hashed and linear lookup succeed for the same non-empty names and return the same symbol when no two share the name |
| SymbolHash.StandardLookupsAgree | 3rdparty/testutils/cpp-stub/elfio.hpp:2652-2696 | in a table whose chains were built with the hash in whole numbers, hashed and linear lookup agree, and a name is found if and only if a symbol has it |
| SymbolHash.EmptyNameSucceeds | 3rdparty/testutils/cpp-stub/elfio.hpp:2652-2696 | both lookups succeed for the empty name |
| Bytes.SwapTwice | 3rdparty/testutils/cpp-stub/elfio.hpp:932-1000 | the byte swap is an involution on words of any width |
| Bytes.ConvertIsSwap64 | 3rdparty/testutils/cpp-stub/elfio.hpp:932-948 | the 64-bit masks and shifts reverse the bytes |
| Bytes.ConvertIsSwap32 | 3rdparty/testutils/cpp-stub/elfio.hpp:960-970 | the 32-bit masks and shifts reverse the bytes |
| Bytes.ConvertIsSwap16 | 3rdparty/testutils/cpp-stub/elfio.hpp:982-990 | the 16-bit mask and shift reverse the bytes |
| Bytes.FieldRoundTrip | 3rdparty/testutils/cpp-stub/elfio.hpp:919-1021 | a converted field reads back its value at every width, with and without conversion |
| Bytes.ConvertedIsBigEndian | 3rdparty/testutils/cpp-stub/elfio.hpp:919-1021 | a converted field stands in the file most significant byte first |
| SectionData.SectionData.AppendData | 3rdparty/testutils/cpp-stub/elfio.hpp:1310-1333 | the content is the old bytes followed by the new ones, in place or in a grown buffer, with size at most capacity; a NOBITS section stays empty |
| SectionData.SectionData.SetData | 3rdparty/testutils/cpp-stub/elfio.hpp:1286-1301 | the content is exactly the given bytes, or empty when none are given |
| StringTable.EveryStringReadsBack | 3rdparty/testutils/cpp-stub/elfio.hpp:1644-1677 | over any history of additions to any table every string ever added reads back at the position returned for it |
| StringTable.PositionsAscend | 3rdparty/testutils/cpp-stub/elfio.hpp:1659-1677 | the strings added do not overlap, their positions ascend, and each stands directly behind the NUL byte of the one before |
| StringTable.ReadStays | 3rdparty/testutils/cpp-stub/elfio.hpp:1659-1677 | an addition does not change what is read at any terminated position |
| StringTable.GetString | 3rdparty/testutils/cpp-stub/elfio.hpp:1644-1656 | the C string at the position, or nothing exactly when it lies outside the section |
| StringTable.AddString | 3rdparty/testutils/cpp-stub/elfio.hpp:1659-1677 | appends one terminated string behind the data (never at 0) and returns where it stands |
| Notes.ReaderFindsWriter | 3rdparty/testutils/cpp-stub/elfio.hpp:3104-3164 | a fresh accessor finds exactly the start positions of the writer if and only if every note but the last announces only bytes it writes |
| Notes.AbsentDescriptorLosesNotes | 3rdparty/testutils/cpp-stub/elfio.hpp:3126-3131 | a concrete history after which they differ |
| Notes.NoteIsRead | 3rdparty/testutils/cpp-stub/elfio.hpp:3065-3101 | a note that stands in a section reads back its type, name and descriptor, in either byte order |
| Notes.EveryNoteIsRead | 3rdparty/testutils/cpp-stub/elfio.hpp:3065-3164 | note i of any honest history is found at position i of a fresh accessor and reads back type, name and descriptor |
| Notes.NoteBytes | 3rdparty/testutils/cpp-stub/elfio.hpp:3104-3135 | a note byte for byte: three words with the length of the name and its NUL byte, the length of the descriptor and the type, in the byte order of the file; the name, zeros up to a multiple of four; the descriptor, zeros up to a multiple of four |
| Notes.ReaderGoesOn | 3rdparty/testutils/cpp-stub/elfio.hpp:3139-3164 | on any section the walk goes on behind name and descriptor as the header words tell, rounded up to four, and stops where fewer than twelve bytes are left |
| Notes.ReportedExactly | 3rdparty/testutils/cpp-stub/elfio.hpp:3065-3101 | what is reported of any bytes, and exactly when nothing is |
| Notes.EncodeAllAppends | 3rdparty/testutils/cpp-stub/elfio.hpp:3133-3134 | a history of `add_note` calls builds the concatenation that the reading lemmas are about |
| Notes.WriterStartsAppends | 3rdparty/testutils/cpp-stub/elfio.hpp:3133-3134 | and records the start positions that they compare with |
| Notes.NoteAccessor.ProcessSection | 3rdparty/testutils/cpp-stub/elfio.hpp:3139-3164 | the walk terminates on any section and records the positions that `ReaderFindsWriter` is about |
| Notes.NoteAccessor.AddNote | 3rdparty/testutils/cpp-stub/elfio.hpp:3104-3135 | appends the encoded note to the section and its start to the positions |
| Notes.NoteAccessor.GetNote | 3rdparty/testutils/cpp-stub/elfio.hpp:3065-3101 | for a recorded position: type, name, and where the descriptor starts, or failure where name and sizes do not fit the section; `NoteIsRead` says what that is for a written note |
| ModInfo.RoundTripExactly | 3rdparty/testutils/cpp-stub/elfio.hpp:3906-3946 | the pairs found again are the pairs written if and only if all text is NUL-free and no field contains '=' |
| ModInfo.SplitExactly | 3rdparty/testutils/cpp-stub/elfio.hpp:3937-3940 | a string is divided at its first '='; without one it is both field and value |
| ModInfo.EncodeAllAppends | 3rdparty/testutils/cpp-stub/elfio.hpp:3916 | a history of `add_attribute` calls builds the bytes that this is about |
| ModInfo.ModInfoAccessor.ProcessSection | 3rdparty/testutils/cpp-stub/elfio.hpp:3926-3946 | the nested scan terminates on any section and finds the parsed pairs |
| ModInfo.ModInfoAccessor.AddAttribute | 3rdparty/testutils/cpp-stub/elfio.hpp:3906-3922 | appends the pair to section and content and returns where it stands |
| FileImage.StructureSizes | 3rdparty/testutils/cpp-stub/elfio.hpp:702-790 | the header structures have the sizes of the two classes: 64/52, 64/40 and 56/32 bytes |
| FileImage.RecordRoundTrip | 3rdparty/testutils/cpp-stub/elfio.hpp:702-790 | any structure whose fields fit reads back field by field, in either byte order |
| FileImage.DisjointWritesSurvive | 3rdparty/testutils/cpp-stub/elfio.hpp:2148-2177 | writes to disjoint ranges of the file all survive, in whatever order they happen |
| FileBytes.UnwrittenIsZero | 3rdparty/testutils/cpp-stub/elfio.hpp:1829-1831 | a byte that no write covers is zero |
| FileBytes.EndOfFile | 3rdparty/testutils/cpp-stub/elfio.hpp:1829-1831 | the file ends where the last of its writes ends |
| FileImage.OutStream.Save | 3rdparty/testutils/cpp-stub/elfio.hpp:1829-1831 | the writing part of `save` performs exactly the writes about which the round trip speaks |
| FileBytes.SavedFileBytes | 3rdparty/testutils/cpp-stub/elfio.hpp:1829-1831 | the saved file at literal positions: identification, every field of the three structures in the byte order of e_ident[5] and the widths of e_ident[4], and the bytes of every section of a type other than 0 and 8 |
| FileImage.OutStream.SaveSections | 3rdparty/testutils/cpp-stub/elfio.hpp:2148-2161 | headers to the section table, bytes to the section offsets, nothing for sections without file bytes |
| FileImage.OutStream.SaveSegments | 3rdparty/testutils/cpp-stub/elfio.hpp:2164-2177 | program headers one behind the other at the segment table |
| FileLoad.ImageLoads | 3rdparty/testutils/cpp-stub/elfio.hpp:1754-1787 | an image that holds every part of a consistent object loads as that object |
| FileLoad.SaveMakesImage | 3rdparty/testutils/cpp-stub/elfio.hpp:1829-1831 | saving a consistent object without overlaps leaves every part of it in the file |
| FileLoad.SaveLoadRoundTrip | 3rdparty/testutils/cpp-stub/elfio.hpp:1754-1834 | such an object is loaded back unchanged: file header, section headers, bytes, names and program headers, in either byte order and class |
| FileBytes.LoadsExactly | 3rdparty/testutils/cpp-stub/elfio.hpp:1754-1787 | a file is loaded if and only if it has the four magic bytes, class 1 or 2, and room for the file header |
| FileBytes.LoadedFileHeader | 3rdparty/testutils/cpp-stub/elfio.hpp:702-737 | every field of the file header at its literal position, least significant byte first for e_ident[5] = 1 and most significant first otherwise, for both classes |
| FileBytes.LoadedCounts | 3rdparty/testutils/cpp-stub/elfio.hpp:2041-2101 | as many sections and segments as the file header says |
| FileBytes.LoadedSectionHeaderBytes | 3rdparty/testutils/cpp-stub/elfio.hpp:739-766 | every field of section header i at its literal position behind e_shoff + i * e_shentsize |
| FileBytes.LoadedSegmentHeaderBytes | 3rdparty/testutils/cpp-stub/elfio.hpp:768-790 | every field of program header i at its literal position behind e_phoff + i * e_phentsize |
| FileBytes.LoadedSectionBytes | 3rdparty/testutils/cpp-stub/elfio.hpp:1350-1377 | a section's data are the file's bytes at its offset, or none for types 0 and 8, empty sections, and sizes not below that of the file |
| FileBytes.LoadedName | 3rdparty/testutils/cpp-stub/elfio.hpp:2056-2068 | a section's name is the string at sh_name in the section that e_shstrndx names, up to its NUL byte, or empty where there is none |
| FileBytes.LoadedSegmentBytes | 3rdparty/testutils/cpp-stub/elfio.hpp:1568-1594 | a segment's data are read if and only if its type is not 0 and its file size is positive and no larger than the file; they are the bytes at its offset |
| FileLoad.InStream.LoadSections | 3rdparty/testutils/cpp-stub/elfio.hpp:2041-2071 | headers and bytes first, names from the name string table afterwards, and every section counts as having an address |
| FileLoad.MembersExactly | 3rdparty/testutils/cpp-stub/elfio.hpp:2074-2135 | a loaded segment lists exactly the sections that belong to it, in strictly ascending order, as the subset test of the layout needs |
| FileLoad.ListedExactly | 3rdparty/testutils/cpp-stub/elfio.hpp:2077-2133 | a loaded segment lists an SHF_ALLOC section if and only if every address of it lies in the segment's memory image, any other one if and only if every file position of it lies in the file image, an empty one if and only if its start does |
| FileLoad.InStream.SectionsOf | 3rdparty/testutils/cpp-stub/elfio.hpp:2120-2135 | the loop over the sections finds those |
| FileLoad.InStream.LoadSegments | 3rdparty/testutils/cpp-stub/elfio.hpp:2091-2142 | all program headers in order, every segment with an offset, with the section list that `MembersExactly` describes, and with the data about which `SegmentDataHolds` speaks |
| FileLoad.SegmentDataHolds | 3rdparty/testutils/cpp-stub/elfio.hpp:1568-1594 | the data that a segment loads holds the bytes of every section that its file image covers, at the section's distance from its start |
| FileLoad.InStream.LoadFile | 3rdparty/testutils/cpp-stub/elfio.hpp:1754-1787 | loading yields the object in memory about which `SaveThenLoad` and `SectionsReturn` speak, and nothing exactly for images that are too short, have no ELF signature or no known class |
| SaveFile.AppliedConsistent | 3rdparty/testutils/cpp-stub/elfio.hpp:1802-1827 | layout keeps every header field within the class and every buffer in step with its header |
| SaveFile.AppliedBands | 3rdparty/testutils/cpp-stub/elfio.hpp:1802-1827 | after layout the writes lie in four bands: file header, program headers, section bytes, section headers |
| SaveFile.BandsApart | 3rdparty/testutils/cpp-stub/elfio.hpp:2145-2177 | writes in such bands never clobber each other |
| SaveFile.SaveThenLoad | 3rdparty/testutils/cpp-stub/elfio.hpp:1754-1834 | whatever object `save` lays out successfully into a file its class can address, `load` gives back the laid-out object, with addresses and offsets marked as set |
| SavedHeaders.OtherFieldsStay | 3rdparty/testutils/cpp-stub/elfio.hpp:1802-1827 | saving changes no field of a section but address and offset, of a segment but alignment, sizes and offset, of the file header but numbers and places of the tables |
| SavedHeaders.AddressesStay | 3rdparty/testutils/cpp-stub/elfio.hpp:2256-2416 | a preset address stays, and so does that of a section outside all segments |
| SavedHeaders.OffsetsAreAligned | 3rdparty/testutils/cpp-stub/elfio.hpp:2260-2386 | in the saved headers sh_offset is a multiple of sh_addralign wherever layout was free to choose |
| SavedHeaders.SegmentsAreCongruent | 3rdparty/testutils/cpp-stub/elfio.hpp:2281-2338 | in the saved headers p_align reaches the sh_addralign of every listed section, and p_offset is congruent to p_vaddr modulo it |
| Reload.SectionsReturn | 3rdparty/testutils/cpp-stub/elfio.hpp:2074-2135 | after saving and loading, a segment lists every non-empty section again that it listed before and that its memory image (SHF_ALLOC) or file image covers |
| Reload.MemorySegmentReturns | 3rdparty/testutils/cpp-stub/elfio.hpp:2074-2135 | a segment that placed all its sections itself, all counting towards memory, gets every non-empty one back whose position and address go together |
| Reload.SegmentBytesReturn | 3rdparty/testutils/cpp-stub/elfio.hpp:1568-1594 | after saving and loading, a segment's data holds the bytes that its covered sections had in memory before |
| Resave.LayoutAgain | 3rdparty/testutils/cpp-stub/elfio.hpp:1802-1827 | laying out the result of a layout, as loading presents it, gives the same result: the same order of segments, no section moves, no segment changes its offset, size or alignment, and the section header table stays |
| Resave.NewSectionStaysExactly | 3rdparty/testutils/cpp-stub/elfio.hpp:2355-2416 | a section without file bytes that came without an address finds the place that it has, the second time, if and only if it was not padded the first time |
| Resave.LoadedFileIsReady | 3rdparty/testutils/cpp-stub/elfio.hpp:1754-1787 | a concrete loaded executable that meets these conditions and is laid out |
| Reload.SaveLoadSave | 3rdparty/testutils/cpp-stub/elfio.hpp:1754-1834 | saving a loaded object, loading that file and saving it again writes the same bytes, as long as loading assigns the sections to the same segments |
| SaveFile.SmallestIsLaidOut | 3rdparty/testutils/cpp-stub/elfio.hpp:1802-1827 | a concrete object that meets every hypothesis of `SaveThenLoad` |
| Validation.EndpointsDecideOverlap | 3rdparty/testutils/cpp-stub/elfio.hpp:1898-1925 | for sections that end below 2^64 the four endpoint tests hold if and only if the two share a byte |
| Validation.EndpointsRightExactly | 3rdparty/testutils/cpp-stub/elfio.hpp:1898-1925 | for all non-empty sections the endpoint tests answer correctly if and only if both end below 2^64, or one does and the other, seen from its start, neither shares bytes unnoticed nor seems to through its wrapped end |
| Validation.LastByteGoesUnnoticed | 3rdparty/testutils/cpp-stub/elfio.hpp:1898-1902 | two sections on the last byte of the address range share it unnoticed |
| Validation.OverlapReportedExactly | 3rdparty/testutils/cpp-stub/elfio.hpp:1908-1936 | of two sections that end below 2^64 an overlap is reported if and only if they share a byte, both lie behind offset 0, and neither type has bit 8 |
| Validation.DynamicSymbolsAreSkipped | 3rdparty/testutils/cpp-stub/elfio.hpp:1916-1917 | a concrete dynamic symbol table and a text section on the same bytes that pass the check |
| Validation.Validate | 3rdparty/testutils/cpp-stub/elfio.hpp:1908-1936 | names the first pair in loop order that fails the check, or nothing exactly when no pair does |
| Validation.LaidOutFileIsValid | 3rdparty/testutils/cpp-stub/elfio.hpp:1908-1936 | the check finds nothing in any file whose layout succeeded |
| CodePatcher.JumpReachesExactly | 3rdparty/testutils/cpp-stub/stub.h:112-126 | the bytes written jump to the replacement if and only if it is 2^32 or more bytes away or the distance fits the signed 32-bit displacement |
| CodePatcher.LongFormExactly | 3rdparty/testutils/cpp-stub/stub.h:339-347 | the long form, of 13 bytes, is taken if and only if the replacement is 2^32 or more bytes away; the short one has 5 |
| CodePatcher.JumpCanMiss | 3rdparty/testutils/cpp-stub/stub.h:339-347 | a replacement 3 GiB away is missed |
| CodePatcher.ResetKeeps | 3rdparty/testutils/stub-ext/stubext.h:49-58 | undoing a replacement keeps the invariant: bytes outside patched windows original, saved bytes as long as the patch and original, jumps in place, every patched function's wrapper registered and alive |
| CodePatcher.SetKeeps | 3rdparty/testutils/stub-ext/stubext.h:31-46 | replacing a function, patched or not, keeps it |
| CodePatcher.SetTakesEffect | 3rdparty/testutils/stub-ext/stubext.h:31-46 | afterwards the function starts with the jump to the new replacement, the registry finds the new wrapper there, and all other replacements are as before |
| CodePatcher.ResetTakesEffect | 3rdparty/testutils/stub-ext/stubext.h:49-58 | afterwards the function has its original bytes, and all other replacements are as before |
| CodePatcher.ForeignWrappersStay | 3rdparty/testutils/stub-ext/stubext.h:31-72 | no operation touches what other objects registered |
| CodePatcher.ClearRestores | 3rdparty/testutils/stub-ext/stubext.h:65-72 | clearing restores the whole memory and leaves no registry entry of this object |
| CodePatcher.EveryRunKeeps | 3rdparty/testutils/stub-ext/stubext.h:30-72 | the invariant holds at every moment of every run of set, reset and clear |
| CodePatcher.ClearEndsEveryRun | 3rdparty/testutils/stub-ext/stubext.h:65-72 | every run that ends with `clear` ends with the original memory |
| StubExt.Registry.FreeWrapper | 3rdparty/testutils/stub-ext/stub-shadow.cpp:21-34 | exactly the entries of this wrapper disappear, and the wrapper is deleted |
| StubExt.Registry.DepictShadow | 3rdparty/testutils/stub-ext/stub-shadow.h:151-160 | a new wrapper, found under the replacement function's address |
| StubExt.StubExt.Set | 3rdparty/testutils/cpp-stub/stub.h:199-264 | saves the bytes it overwrites the first time, keeps the saved ones afterwards, and writes the jump; nothing else changes |
| StubExt.StubExt.ResetFunction | 3rdparty/testutils/cpp-stub/stub.h:267-316 | the objects make the step that `ResetKeeps` is about; the function is no longer patched |
| StubExt.StubExt.SetLamda | 3rdparty/testutils/stub-ext/stubext.h:31-46 | the objects make the step that `SetKeeps` is about |
| StubExt.StubExt.RestoreAll | 3rdparty/testutils/cpp-stub/stub.h:159-197 | the loop over the map restores the original memory in whatever order it visits the patches |
| StubExt.StubExt.FreeAll | 3rdparty/testutils/stub-ext/stubext.h:68-71 | exactly the wrappers of this object are freed and unregistered |
| StubExt.StubExt.ClearAll | 3rdparty/testutils/stub-ext/stubext.h:65-72 | memory as at the start and nothing patched |
| TrashPath.ReplaceIsIdentity | src/dfm-io/dfm-io/dfmio_utils.cpp:247-248 | replacing changes nothing if and only if there is nothing to replace or both texts are equal |
| TrashPath.FirstIsReplaced | src/dfm-io/dfm-io/dfmio_utils.cpp:247-248 | replacing rewrites the first occurrence and goes on behind it |
| TrashPath.BackslashForm | src/dfm-io/dfm-io/dfmio_utils.cpp:252-258 | trash form is a slash and the path with every slash turned into a backslash |
| TrashPath.NormalForm | src/dfm-io/dfm-io/dfmio_utils.cpp:242-250 | a path without backslash stays; in any other one every backslash becomes a slash, and the path gets shorter if and only if that puts two slashes side by side |
| TrashPath.NormalRoundTrip | src/dfm-io/dfm-io/dfmio_utils.cpp:242-258 | to trash form and back is the identity exactly on absolute paths without backslash and without "//" behind the first character |
| TrashPath.TrashRoundTrip | src/dfm-io/dfm-io/dfmio_utils.cpp:242-258 | to normal form and back is the identity exactly on names that start with a slash and a backslash, with no later slash and no doubled backslash |
| TrashPath.KeyOf | src/dfm-io/dfm-io/dfmio_utils.cpp:202 | the first device with this mount point |
| TrashPath.BindPathTransform | src/dfm-io/dfm-io/dfmio_utils.cpp:189-216 | the loop with early exit translates by the first matching entry only |
| TrashPath.OnlyPrefixRewritten | src/dfm-io/dfm-io/dfmio_utils.cpp:198-215 | only the leading occurrence is rewritten if and only if the prefix does not occur again behind itself or is translated to itself |
| TrashPath.LaterOccurrenceIsRewritten | src/dfm-io/dfm-io/dfmio_utils.cpp:207-212 | a file named like the device: "/d/x/d" becomes "/m/x/m" |
| TrashPath.BindUrlTransform | src/dfm-io/dfm-io/dfmio_utils.cpp:226-240 | computes the translation for which `BindUrlLeavesTrashNames` shows that well-formed trash names stay |
| TrashPath.BindUrlLeavesTrashNames | src/dfm-io/dfm-io/dfmio_utils.cpp:226-240 | a well-formed trash name that no device is a prefix of is left as it is |
| TrashPath.BindUrlOfPath | src/dfm-io/dfm-io/dfmio_utils.cpp:226-233 | a path without backslash moves from the first device it starts with to the mount point, or stays when it starts with none |
| TrashPath.BindUrlOfTrashName | src/dfm-io/dfm-io/dfmio_utils.cpp:235-239 | a trash name on a device becomes the trash name under the mount point |

## Left out

- Allocation failure, stream errors and the growth of a section's buffer beyond 32 bits: preconditions or not modelled.
- Files that end at or behind the largest position their class can express: the layout invariant holds for them too (positions wrap), but disjointness, coverage and congruence are stated for shorter files, where header fields tell the true positions.
- Malformed images: reading outside the image gives zeros in the model, and the round trip starts from an object that was saved.
- Creating the header object, `dump`, and the dynamic, array and version accessors.
- `Reload.SectionsReturn`: empty sections at the very end of an image are not matched by the program, and sections without file bytes that came with an address of their own need not be; a segment may also get sections back that it did not list before.
- `LoadableLayout.LoadableLayoutSucceeds`: a sufficient condition; `LaminarLayout.LaminarLayoutExactly` is exact for nested or disjoint segments whose sections all have addresses. Segments that overlap without being nested can succeed or fail; `LayoutSuccess.PlaceOneFails` tells at which section.
- `Reload.SaveLoadSave`: for objects with addresses and offsets as after `load`. A new section without an address gets one on the first save, and one without file bytes then loses its padding (`Resave.NewSectionStaysExactly`), so that what stands behind it can move.
- `FileLoad.SegmentDataHolds`: the data of a segment that reaches beyond the end of the file is not stated.
- The file image works on header records as values, and the layout on the objects `ElfFile.Section` and `ElfFile.Segment`; `SaveFile` carries the results of one over to the other.
- Segments in the worklist are positions in `segments_`, not pointers, and sections are known by their index.
- `std::includes` is modelled as the standard library computes it; that it decides inclusion is proved for ascending lists, which `load_segments` produces.
- `SymbolTable.SymbolSection.ArrangeLocalSymbols`: one relocation section stands for the callback, symbol records are values, and the number of symbols must fit the symbol index of r_info.
- `Notes.NoteAccessor.GetNote`: only for positions that were recorded; the program compares the index with the section size instead of the number of notes and would read outside its vector. Where it would read a name past the section, the model reports failure.
- `Notes.ReaderFindsWriter`: names and descriptors are at most 2^32 - 5 and 2^32 - 4 bytes long, so that rounding up to four does not wrap.
- `SymbolHash.HashedLookup`: the hash section is a well-formed SHT_HASH in host byte order; the program takes any section linked to the symbol table for one and does not convert its words.
- `Validation.LaidOutFileIsValid`: null sections are taken to have no size, as the standard has it, and the file end to fit the class.
- `StubExt.StubExt.Set`: what a later `reset` does after a second direct `set` that changed the jump form; `set_lamda` always resets first, and the run theorems are about that path.
- Memory protection, cache flushes, other processors, exceptions and 32-bit pointers; the replacement code that looks its wrapper up, and several `StubExt` objects at once.
- `StubExt.Registry.DepictShadow`: wrappers are numbers, and a replacement function is registered once at a time, which the program asserts.
- Reading the file system table, URL parsing and everything else in `dfmio_utils.cpp`; the device table is a list in the order of its keys, without empty devices or mount points.
