# Verified model of the sld linker's passes

sld links ELF objects in passes: it sizes every table and section, then assigns
addresses, then writes. Most of its hard invariants say that separate passes,
written far apart, agree with each other, or that a fast table agrees with the
plain list it encodes. This project models those passes in Dafny and proves the
agreements for all inputs, all runs and all list lengths.

`dafny verify dfyconfig.toml` checks everything. The files, by component:

| file | what it holds |
|---|---|
| `InputLoader.dfy`, `Extraction.dfy`, `LoadOrder.dfy`, `DeliveredOrder.dfy` | workers that race to open input files and linker scripts, as a step relation; the recursive extraction; the proof that every schedule gives the same order, and what that order is |
| `Resolutions.dfy`, `TableWriter.dfy`, `Accounting.dfy`, `Loading.dfy` | sizing, address assignment and writing of GOT, PLT and dynamic relocation entries, when the three agree, and what every GOT slot holds after loading |
| `GnuHash.dfy`, `SysvHash.dfy` | the two dynamic symbol hash tables and the lookups that read them |
| `EhFrame.dfy`, `EhFrameWriter.dfy`, `EhFrameAgreement.dfy`, `EhFrameContents.dfy` | `.eh_frame` garbage collection: sizing through per-section frame lists, then filtering, compaction and CIE pointer rewriting, and the bytes of every kept entry |
| `RelaxDeltas.dfy`, `Relaxation.dfy`, `RelaxDecisions.dfy`, `RelaxMargins.dfy` | RISC-V size-reducing relaxation: the scan, what it may delete, the merge of passes, the compaction loop, the margins that decide on another scan |
| `Versions.dfy` | symbol-version indexes of shared objects, from marking to Vernaux |
| `FileLayout.dfy`, `Alignments.dfy` | compression of debug sections, file layout after it and the splitting of the output buffer |
| `RiscvAttributes.dfy` | size, bytes and parser of `.riscv.attributes` |
| `DynamicSymbols.dfy` | chunked writing of dynamic symbol definitions |
| `GnuProperties.dfy` | merging of GNU property notes |
| `Wrappers.dfy`, `Machine.dfy`, `Sequences.dfy` | `Option` and `Result`; bytes, words and wrap-around; sums |

## Results that differ from what one would expect

Each of these is a property that the code does not have in general. The project
keeps the code as it is, shows a failing input, and proves the exact condition.

- A symbol that is both dynamic and ifunc and has a GOT entry is sized in one
  relocation table and written in another (`Accounting.DynamicIfuncDisagrees`).
  `Accounting.AccountingIff` gives the exact condition under which sizing and
  writing agree.
- The runtime self-check rejects every symbol with a TLS-offset GOT entry,
  because it replays the writer without a layout
  (`Accounting.VerifyResolutionAllocation`).
- Layout attaches an FDE to the section of its last pc-begin symbol, and the
  writer looks at the first relocation only. `EhFrameAgreement.LatePcBeginIsLost`
  is an FDE that is counted and then dropped, and
  `EhFrameAgreement.SecondPcBeginIsUncounted` one that is written and was never
  counted; `EhFrameAgreement.TargetsAgreeIff` says for every FDE exactly when the
  two agree.
- Version numbering counts needed slots while version sizing counts definitions,
  so a base definition whose index is not 1 makes two libraries share an index
  (`Versions.MisnumberedBaseCollides`). `Versions.StaysInRangeIff` says when a
  library stays in its range, `Versions.ShareIndexIff` exactly when two share an
  index, and `Versions.NamedOnceIffDefinedOnce` when every version has one Vernaux.
- A library with two base definitions has its name written twice and counted once
  (`Versions.TwoBasesOverrun`, `Versions.StringsAgreeIff`).
- The alignment that relaxation computes from a padding of `a - k` bytes, for
  instructions of `k` bytes, is the requested `a` only above `2 * k`
  (`Relaxation.RequestedAlignment`).
- A padding that one relaxation pass has shortened is left alone by the next, so
  deletions before it can take what follows off its alignment
  (`Relaxation.SecondPassMisaligns`). `Relaxation.PassAligns` states what a pass
  does to a padding not yet shortened, and `Relaxation.StaysAlignedIff` exactly when
  a shortened one stays aligned.
- `hi20_fits_clui` documents a signed range, but its shift is unsigned, so only
  1 to 31 are ever accepted (`Relaxation.CLuiRange`,
  `Relaxation.NegativeIsRefused`).
- A section is not scanned again if its least margin is more than the bytes
  deleted, on the ground that addresses shift by at most those bytes and so no
  candidate can succeed. Addresses can shift further: realignment adds to the
  fall of an address exactly where it rounds up (`RelaxMargins.FallWithinIff`,
  `RelaxMargins.KeepsUpIff`, failing at `RelaxMargins.RealignedCallIsMissed`), and
  bytes that a capacity rounds away are not counted (`RelaxMargins.CountedIff`,
  failing at `RelaxMargins.UncountedCallIsMissed`). Where neither happens the shift
  is within the bound (`RelaxMargins.FallsWithinDeleted`). Under that premise a
  backward call one byte short of its margin can still succeed
  (`RelaxMargins.SkippedCallFitsIff`, `RelaxMargins.BackwardCallIsMissed`), and so
  can an address load within a page of its margin or of the end of the first page
  of its 4 GiB (`RelaxMargins.SkippedLuiRelaxIff`, `RelaxMargins.PageIsMissed`,
  `RelaxMargins.FourGigabytesAreMissed`); no other candidate with a margin can
  (`RelaxMargins.SkippedCallStaysOut`, `RelaxMargins.SkippedLuiStays`). A load whose
  register has no short form gets no margin at all, though its lui may come to be
  deleted (`RelaxMargins.NoMarginIff`, `RelaxMargins.LuiGoIff`,
  `RelaxMargins.UnrecordedLuiIsMissed`).
- An architecture version of two digits is written and cannot be read back
  (`RiscvAttributes.TwoDigitsAreLost`, `RiscvAttributes.SectionRoundTrip`).
- A dynamic symbol defined by a linker script takes no version slot, so versions
  of later symbols of its chunk move down (`DynamicSymbols.ScriptShiftsVersions`,
  `DynamicSymbols.TableSlotIffNoScript`).

## Model

| member | source | states |
|---|---|---|
| `InputLoader.FirstOccurrences` | libsld/src/input_data.rs:311-328 | Deduplication keeps exactly the given paths, each once |
| `InputLoader.StartFromCommandLine` | libsld/src/input_data.rs:301-338 | Fails exactly if a path does not resolve; otherwise the workers start with the distinct paths indexed in command-line order |
| `InputLoader.LoadInput` | libsld/src/input_data.rs:677-712 | After the call the path has the returned index in the shared map, whether found or newly claimed |
| `InputLoader.InitialInv` | libsld/src/input_data.rs:309-338 | The start state satisfies the loader invariant: path-to-index bijection, every index owned once, command line first |
| `InputLoader.ClaimIndexes` | libsld/src/input_data.rs:677-712 | Claiming keeps the map a bijection onto the indexes below the counter, and every later path spawned by an earlier script |
| `InputLoader.ClaimOwners` | libsld/src/input_data.rs:677-712 | A claim leaves every index owned by exactly one running task or recorded file |
| `InputLoader.ClaimTasks` | libsld/src/input_data.rs:599-712 | A claim by one worker disturbs no other worker's claims and no recorded file |
| `InputLoader.FinishOwners` | libsld/src/input_data.rs:599-675 | Recording a file moves the ownership of its index and keeps it unique |
| `InputLoader.RecordedOk` | libsld/src/input_data.rs:599-675 | What a finished worker records is what the disk holds, with a script's inputs complete and in order, or an error |
| `InputLoader.StepInv` | libsld/src/input_data.rs:599-712 | Any step of any worker keeps the invariant |
| `InputLoader.RunInv` | libsld/src/input_data.rs:301-361 | The invariant holds in every state of every run |
| `Extraction.Extract` | libsld/src/input_data.rs:403-464 | Extraction never refills a slot, so the number of filled slots is a termination measure even for scripts that include each other |
| `Extraction.ExtractAppend` | libsld/src/input_data.rs:421-464 | Extracting one list after another is extracting their concatenation, so recursion and a work list agree |
| `Extraction.FileLoader.ExtractFile` | libsld/src/input_data.rs:421-464 | The recursive method leaves slots, outputs and error as the work-list specification says |
| `Extraction.FileLoader.ExtractAll` | libsld/src/input_data.rs:403-419 | Extracts all slots in index order, stopping at the first error |
| `Extraction.SlotByIndex` | libsld/src/input_data.rs:345-359 | Succeeds exactly if indexes are in range and distinct, and then holds every file at its index |
| `Extraction.FileLoader.FinaliseOpenFiles` | libsld/src/input_data.rs:340-361 | The duplicate-index assertion fires exactly for repeated or out-of-range indexes; otherwise the result is that of extraction |
| `LoadOrder.VisitCloses` | libsld/src/input_data.rs:347-350 | The reference walk, when it completes, has seen everything it was given and everything any seen script names |
| `LoadOrder.VisitWithin` | libsld/src/input_data.rs:347-350 | The reference walk loads nothing that is not referenced, and stops only on an unloadable referenced path |
| `LoadOrder.EachScriptOnce` | libsld/src/input_data.rs:421-464 | Scripts that include each other are delivered exactly once each |
| `LoadOrder.ExtractFollowsVisit` | libsld/src/input_data.rs:403-464 | Extraction by schedule-dependent index has the outcome of the walk by path |
| `LoadOrder.QuiescentSlots` | libsld/src/input_data.rs:345-359 | When no worker runs, every slot is filled exactly once |
| `LoadOrder.VisitClaimOrder` | libsld/src/input_data.rs:301-361 | Walking all claimed paths in claim order equals walking the command line |
| `LoadOrder.LoadOrderIsDeterministic` | libsld/src/input_data.rs:301-361 | Every finished run, whatever the schedule and also with failing files, extracts to the first-visit depth-first order of the command line or to that walk's first error |
| `LoadOrder.SchedulesAgree` | libsld/src/input_data.rs:340-361 | Any two finished runs deliver the same inputs or fail on the same path |
| `LoadOrder.StepProgress` | libsld/src/input_data.rs:599-712 | Each step claims a fresh path or reduces the work left |
| `LoadOrder.NoEndlessRun` | libsld/src/input_data.rs:599-712 | No schedule goes on for ever |
| `LoadOrder.RunWorkers` | libsld/src/input_data.rs:331-343 | Letting any worker move next ends in a state with no worker left, and the invariant holds there |
| `LoadOrder.LoadInputs` | libsld/src/input_data.rs:301-361 | From the command line to the delivered inputs: whichever worker moves at each step, loading terminates with the depth-first order or its first error, and fails beforehand exactly if a path does not resolve |
| `DeliveredOrder.WalkIsFirstVisits` | libsld/src/input_data.rs:397-464 | The walk delivers the records, files and scripts of the paths in order of first visit, one after the other, or stops at the first of them that cannot be loaded |
| `DeliveredOrder.LoadInOrder` | libsld/src/input_data.rs:301-361 | Whatever the schedule, loading delivers exactly the objects and files of that list, in its order, and is dynamic exactly if one of them is |
| `DeliveredOrder.FirstVisitsAreNew` | libsld/src/input_data.rs:421-464 | The list of first visits holds no path twice |
| `DeliveredOrder.VisitsHold` | libsld/src/input_data.rs:421-464 | It holds every path that the command line names |
| `DeliveredOrder.RepeatsChangeNothing` | libsld/src/input_data.rs:311-328 | Naming a path again on the command line changes nothing |
| `Resolutions.AllocateResolution` | libsld/src/elf.rs:1495-1556 | Adds exactly the specified entries, in bytes, to each of the six tables |
| `Resolutions.CreateResolution` | libsld/src/elf.rs:1684-1736 | Assigns the current offsets as addresses and steps over the slots reserved |
| `Resolutions.AllocateGot` | libsld/src/elf.rs:5150-5160 | Returns the current GOT offset and moves it by the given number of entries |
| `Resolutions.AllocateSymbols` | libsld/src/elf.rs:1495-1556 | Sizing a list gives the byte sizes of the sum of its allocations |
| `Resolutions.CreateSymbols` | libsld/src/elf.rs:1684-1736 | Every symbol of a list gets the offsets left behind by those before it |
| `TableWriters.TableWriter.ProcessGotTlsOffset` | libsld/src/elf_writer.rs:850-892 | Fills one slot and the relocations for it, or fails for missing layout, symbol index or room |
| `TableWriters.TableWriter.ProcessGotTlsModAndOffset` | libsld/src/elf_writer.rs:894-932 | Fills the module and offset slots and their relocations, or fails |
| `TableWriters.TableWriter.ProcessGotTlsDescriptor` | libsld/src/elf_writer.rs:934-964 | Fills the two descriptor slots and the relocation, or fails |
| `TableWriters.TableWriter.WriteAddressRelocation` | libsld/src/elf_writer.rs:1135-1183 | Uses RELR exactly for even places when there is a RELR table, and a RELATIVE relocation otherwise |
| `TableWriters.TableWriter.ProcessResolution` | libsld/src/elf_writer.rs:761-847 | Succeeds exactly if no check bails and the writes fit, and then has appended exactly the specified writes to all six tables |
| `TableWriters.TableWriter.ProcessResolutions` | libsld/src/elf_writer.rs:761-1058 | The same for a list of resolutions in order |
| `Accounting.TlsAccounting` | libsld/src/elf_writer.rs:850-964 | A TLS symbol takes exactly what was allocated if and only if its flags are consistent |
| `Accounting.AccountingIff` | libsld/src/elf.rs:1495-1556 | The writer takes exactly what was allocated for a resolution if and only if a stated condition on flags, output kind and GOT parity holds |
| `Accounting.DynamicIfuncDisagrees` | libsld/src/elf_writer.rs:800-820 | A dynamic ifunc with a GOT slot is sized and written differently for every output kind |
| `Accounting.AllTakeExactly` | libsld/src/elf_writer.rs:992-1058 | For every list of consistent symbols, all six tables sized by the first pass are used up exactly by the third |
| `Accounting.LinkSymbols` | libsld/src/elf_writer.rs:761-1058 | All three passes run over one list: nothing fails, every table ends full, contents are what the resolutions ask for |
| `Accounting.OffsetsAreSlots` | libsld/src/elf.rs:1684-1736 | The offset handed to a symbol is the address of the next GOT slot and PLT entry the writer will take |
| `Accounting.TlsAccessorOrder` | libsld/src/elf.rs:5162-5207 | TLS accessors count slots in the order the writer fills them |
| `Accounting.GotAddressesNameSlots` | libsld/src/elf.rs:5162-5207 | Each resolution's GOT address is its first slot in the whole GOT, and each accessor names the slot filled for its own purpose |
| `Accounting.PltAddressesNameEntries` | libsld/src/elf.rs:1684-1736 | Each PLT address is that of the resolution's own PLT entry |
| `Accounting.RelocationsNameSlots` | libsld/src/elf_writer.rs:771-964 | The place of every dynamic relocation of a symbol is the GOT slot of its own purpose, and that of every relative or packed one a slot that ends up with the symbol's or its PLT entry's address |
| `Accounting.SlotsAreDisjoint` | libsld/src/elf.rs:1684-1736 | The slots reserved for one resolution end before the GOT address of any later one |
| `Accounting.UsesNeverShare` | libsld/src/elf.rs:5162-5207 | Addresses that accessors name for different uses, within one resolution or across two, are never the same or overlapping slots |
| `Accounting.NamedIsFilled` | libsld/src/elf_writer.rs:771-964 | The slot at an address that an accessor names is the one the writer filled for that use |
| `Loading.PointerLoads` | libsld/src/elf_writer.rs:771-847 | The pointer slot of a symbol, with every relocation written for it applied, holds what its flags call for |
| `Loading.TlsLoads` | libsld/src/elf_writer.rs:850-964 | So does every slot of a TLS symbol: thread offset, module, module offset and descriptor |
| `Loading.SlotsLoad` | libsld/src/elf_writer.rs:771-964 | In the tables of a whole list no other symbol's relocation touches a slot, and each slot holds, after loading, what its symbol and use need |
| `Loading.NamedLoads` | libsld/src/elf.rs:5162-5207 | The address that any accessor names for a use holds, after loading, what that use needs of that symbol's own value and dynamic index |
| `Loading.PointerValue` | libsld/src/elf_writer.rs:800-847 | In numbers, for every load address and every choice of symbol addresses: a GOT pointer is the imported symbol's address, the resolver's result, the load address plus the value, or the value |
| `Loading.ImportsAreReached` | libsld/src/elf.rs:1684-1736 | The address that stands for an imported function is its own PLT entry, whose GOT slot holds the imported symbol's address |
| `Accounting.FourTablesSuffice` | libsld/src/elf_writer.rs:992-1058 | Checking GOT, relative, general and RELR for leftovers also rules out leftovers in the other two tables |
| `Accounting.VerifyResolutionAllocation` | libsld/src/elf_writer.rs:6266-6318 | The self-check accepts exactly the consistent flag combinations of its made-up environment, and rejects every TLS-offset symbol |
| `GnuHash.WriteTable` | libsld/src/elf_writer.rs:4714-4783 | The bits of the bloom filter are exactly bits hash % 64 and (hash >> shift) % 64 of word (hash / 64) % count for each definition, and bucket and chain words say what the definitions require, over buffers with any earlier contents |
| `GnuHash.HashOfPrintf` | libsld/src/elf.rs:795 | The hash of the empty name and of `printf` |
| `GnuHash.CreateLayout` | libsld/src/elf.rs:4088-4098 | The bucket count is the least power of two from half the definitions on; one bloom word, shift 6 |
| `GnuHash.BucketWord` | libsld/src/elf_writer.rs:4740-4783 | A bucket word is 0 exactly for an empty bucket, and otherwise the first definition of the bucket |
| `GnuHash.WalkChain` | libsld/src/elf_writer.rs:4750-4783 | Following a chain terminates inside the array, at the name or with none in the bucket |
| `GnuHash.Lookup` | libsld/src/elf_writer.rs:4714-4783 | The loader's lookup finds a dynsym index with the name exactly if some definition has it |
| `GnuHash.SortByBucketOk` | libsld/src/elf.rs:4100-4109 | Sorting is a permutation that puts every bucket together and orders it by name |
| `GnuHash.NameAtMostIff` | libsld/src/elf.rs:4104-4109 | Names are ordered by prefix, or by the first byte that differs |
| `GnuHash.SortIgnoresOrder` | libsld/src/elf.rs:4100-4109 | The order of the dynamic symbols does not depend on the order in which they were found |
| `GnuHash.LinkGnuHash` | libsld/src/elf.rs:4079-4131 | For definitions in any order, the table that is laid out, sorted and written for them finds a name exactly if it is among them |
| `SysvHash.WriteTable` | libsld/src/elf_writer.rs:4643-4712 | Never fails; buckets and chains link the definitions of each bucket in definition order |
| `SysvHash.ChainsAscend` | libsld/src/elf_writer.rs:4643-4712 | Chain words strictly increase and stay inside the array |
| `SysvHash.WalkVisitsBucket` | libsld/src/elf_writer.rs:4643-4712 | A walk visits exactly the definitions hashing to the bucket, in definition order |
| `SysvHash.Lookup` | libsld/src/elf_writer.rs:4643-4712 | Lookup agrees with linear search and returns the first definition of the name |
| `SysvHash.AllocateSysvHash` | libsld/src/elf.rs:2843-2871 | Fails exactly if there are definitions and the dynamic symbols do not fit 32 bits; the bucket count is the least power of two from half the definitions on |
| `SysvHash.WriteAndLookup` | libsld/src/elf_writer.rs:4670-4690 | The words are the two counts, then the buckets, then the chains, and lookup in them agrees with linear search |
| `SysvHash.LinkSysvHash` | libsld/src/elf.rs:1307-1312 | Sizing, the second count of chains, writing and lookup: fails exactly if more symbols turn up than were sized for, leaves exactly the difference of the allocated bytes unused, and agrees with linear search |
| `EhFrame.FrameListVisitsSection` | libsld/src/elf.rs:2794-2841 | A section's frame list strictly descends and visits each of its FDEs once |
| `EhFrame.ScanFde` | libsld/src/elf.rs:2664-2792 | Finds the section of the last pc-begin relocation with a symbol, and consumes exactly the FDE's relocations |
| `EhFrame.ObjectLayoutState.AddFde` | libsld/src/elf.rs:2664-2792 | Puts the FDE at the head of its section's list and keeps all lists linked |
| `EhFrame.ObjectLayoutState.LoadExceptionFrameData` | libsld/src/elf.rs:2664-2792 | Succeeds exactly for well-formed data, and then has counted every CIE, attached every FDE and kept the trailing bytes |
| `EhFrame.ObjectLayoutState.SectionExceptionFrames` | libsld/src/elf.rs:2794-2841 | Following the list sums the bytes and frames of exactly that section's FDEs |
| `EhFrame.ObjectLayoutState.LoadSection` | libsld/src/elf.rs:2794-2841 | Loading a section adds its frames once |
| `EhFrame.ObjectLayoutState.FinaliseObjectSizes` | libsld/src/elf.rs:592-605 | The size is all CIEs, the FDEs of loaded sections and the trailing bytes |
| `EhFrameWriters.WriteEntries` | libsld/src/elf_writer.rs:2728-2919 | The output is exactly as long as the kept entries, with CIE positions and pointers in 32 bits |
| `EhFrameWriters.EhFrameWriter.WriteOne` | libsld/src/elf_writer.rs:2748-2842 | One entry is copied, rewritten, dropped or rejected as specified, or there is no room |
| `EhFrameWriters.EhFrameWriter.WriteEhFrameRelocations` | libsld/src/elf_writer.rs:2728-2919 | Succeeds exactly if the section can be written and fits, and then has appended its output and its search-table entries |
| `EhFrameAgreement.TargetsAgree` | libsld/src/elf_writer.rs:2770-2790 | With the pc-begin relocation first, both passes find the same section |
| `EhFrameAgreement.TargetsAgreeIff` | libsld/src/elf_writer.rs:2770-2790 | For every FDE the passes find the same section exactly if the last pc-begin symbol, where it is not the first relocation's, names the section that the writer finds |
| `EhFrameAgreement.LatePcBeginIsLost` | libsld/src/elf_writer.rs:2770-2790 | An FDE that layout counts and the writer drops |
| `EhFrameAgreement.SecondPcBeginIsUncounted` | libsld/src/elf_writer.rs:2770-2790 | An FDE that the writer keeps and layout never counted |
| `EhFrameAgreement.CountedIsKept` | libsld/src/elf.rs:2664-2841 | Bytes and frames counted at layout equal bytes and FDEs kept by the writer |
| `EhFrameAgreement.OutputSize` | libsld/src/elf_writer.rs:2728-2919 | An object's output is its kept entries and trailing bytes |
| `EhFrameAgreement.LayoutEhFrames` | libsld/src/elf.rs:2664-2841 | Layout of all sections, and loads in any order, give the specified size and frame count |
| `EhFrameAgreement.LinkEhFrames` | libsld/src/elf_writer.rs:2728-2919 | Buffers sized by layout are filled to the last byte, with one search-table entry for each frame counted |
| `EhFrameAgreement.FdesPointAtTheirCies` | libsld/src/elf_writer.rs:2798-2842 | After compaction every kept FDE's pointer, subtracted from its own place without underflow, gives the copy of the CIE that its input pointer named |
| `EhFrameContents.ParsedIff` | libsld/src/elf_writer.rs:2748-2760 | A section is well-formed exactly if its length words lead from entry to entry to a place with fewer than eight bytes left |
| `EhFrameContents.RelocationsByRange` | libsld/src/elf_writer.rs:2768-2900 | Each entry has exactly the relocations that lie in it, in order |
| `EhFrameContents.KeptIff` | libsld/src/elf_writer.rs:2765-2792 | Kept are the CIEs, and the FDEs whose first relocation puts byte 8 into a section with an address |
| `EhFrameContents.RejectedIff` | libsld/src/elf_writer.rs:2774-2830 | Writing fails exactly if some pc-begin has no section of this file, or some kept FDE is too short or names no earlier CIE |
| `EhFrameContents.EntriesStandInOutput` | libsld/src/elf_writer.rs:2836-2842 | In the output of the whole object every kept CIE stands unchanged at its place, and every kept FDE with nothing but bytes 4 to 8 changed |
| `EhFrameContents.TrailingStandsInOutput` | libsld/src/elf_writer.rs:2905-2919 | The bytes behind a section's last entry stand behind its kept entries, up to the next section |
| `EhFrameContents.FdesLeadToTheirCies` | libsld/src/elf_writer.rs:2798-2842 | In the output of the whole object every kept FDE's pointer leads to the unchanged CIE that its input pointer named |
| `RelaxDeltas.Accumulate` | linker-utils/src/relaxation.rs:28-46 | Every entry carries the total deleted up to and including it |
| `RelaxDeltas.InputToOutputIs` | linker-utils/src/relaxation.rs:115-131 | The lookup subtracts exactly the bytes deleted strictly before the offset |
| `RelaxDeltas.OffsetRoundTrip` | linker-utils/src/relaxation.rs:133-150 | A surviving offset goes to the output and back to itself |
| `RelaxDeltas.SurvivorPlace` | libsld/src/elf_writer.rs:2366-2399 | Every surviving byte lands at its input offset minus the bytes deleted strictly before it |
| `RelaxDeltas.CompactSection` | libsld/src/elf_writer.rs:2366-2399 | Writes exactly the surviving bytes in order and then zeros, into any buffer of at least the reduced size |
| `Relaxation.CLuiRange` | linker-utils/src/riscv64.rs:94-104 | The immediate fits exactly for 1 to 31 |
| `Relaxation.NegativeIsRefused` | linker-utils/src/riscv64.rs:94-104 | Every negative immediate of the documented range is refused |
| `Relaxation.DecisionOwned` | libsld/src/elf_riscv64.rs:400-521 | A decision deletes only bytes of the relocation that owns them, where nothing was deleted before |
| `Relaxation.DecisionGood` | libsld/src/elf_riscv64.rs:400-521 | It is disjoint from everything deleted by earlier passes |
| `Relaxation.CollectedOk` | libsld/src/elf_riscv64.rs:387-525 | One pass's deletions strictly ascend, are disjoint and disjoint from earlier passes |
| `Relaxation.NoUnderflow` | libsld/src/elf_riscv64.rs:411-423 | The output offset of a padding never underflows |
| `Relaxation.ScanAlign` | libsld/src/elf_riscv64.rs:402-438 | The padding arm computes the specified deletion from the running totals |
| `Relaxation.ScanRelax` | libsld/src/elf_riscv64.rs:449-516 | The marker arm relaxes exactly the owner directly before it, or gives the owner's margin |
| `Relaxation.CollectRelaxationDeltas` | libsld/src/elf_riscv64.rs:387-525 | The loop with its remembered call and lui equals the per-relocation decision, ascends and stays in bounds, and its margin is the least of the candidates left alone |
| `Relaxation.MergeOk` | linker-utils/src/relaxation.rs:63-82 | Merging disjoint ordered deltas gives their ordered union |
| `Relaxation.MergeSums` | linker-utils/src/relaxation.rs:63-82 | A merge deletes before every offset what both lists delete |
| `Relaxation.PassesStayDisjoint` | libsld/src/layout.rs:4805-4880 | Over any number of passes with any addresses, all deltas stay ordered, disjoint and in bounds |
| `Relaxation.RelaxSection` | libsld/src/layout.rs:4839-4880 | The section's shrunken size fits its surviving bytes exactly after any passes |
| `Relaxation.PassAligns` | libsld/src/elf_riscv64.rs:398-438 | In every pass the byte after a padding that no earlier pass shortened lands on the next multiple of the computed alignment if the padding reaches it, and at the end of the whole padding otherwise, all deletions of all passes counted |
| `Relaxation.MergeSumsTo` | linker-utils/src/relaxation.rs:63-82 | Merging gives deltas of the kind that `PassAligns` speaks of |
| `Relaxation.ShortenedPaddingMoves` | libsld/src/elf_riscv64.rs:402-410 | What follows a padding shortened before moves with the section and by the bytes deleted before the padding since |
| `Relaxation.StaysAlignedIff` | libsld/src/elf_riscv64.rs:402-410 | It stays aligned exactly if that distance is a multiple of the alignment |
| `Relaxation.SecondPassMisaligns` | libsld/src/elf_riscv64.rs:402-410 | A section whose second pass takes what follows a padding off its alignment |
| `Relaxation.EndAligned` | libsld/src/elf_riscv64.rs:423-430 | That place is aligned exactly if the padding reaches the boundary, and is never past the first multiple |
| `Relaxation.RequestedAlignment` | libsld/src/elf_riscv64.rs:425-427 | For powers of two, the computed alignment of a padding of a - k bytes is a exactly for a above 2 * k |
| `RelaxDecisions.CallGoesIff` | libsld/src/elf_riscv64.rs:449-476 | A marked call loses its second instruction exactly if it was not shortened before, its symbol is known and cannot be interposed, and its distance is from -0x100000 up to 0x100000 |
| `RelaxDecisions.LuiGoesIff` | libsld/src/elf_riscv64.rs:477-500 | A marked load goes exactly if the upper part of its value is zero, and is shortened exactly if it is not, bits 7 to 11 name a register other than 0 and 2, and the value is from 0x800 up to 0x1f800 |
| `RelaxDecisions.OthersDeleteNothing` | libsld/src/elf_riscv64.rs:440-521 | Nothing but paddings, marked calls and marked loads deletes anything |
| `RelaxDecisions.DeletedIsDecided` | libsld/src/layout.rs:4805-4880 | Whatever is deleted after any number of passes was decided by a relocation in one of them |
| `RelaxDecisions.ShortenedCallsWereInReach` | libsld/src/layout.rs:4805-4880 | After any number of passes, a shortened call was in reach at the addresses of the pass that shortened it |
| `RelaxMargins.FallIs` | libsld/src/alignment.rs:100-106 | An aligned address falls by what is before it rounded down to the alignment, or by exactly one multiple more |
| `RelaxMargins.FallWithinIff` | libsld/src/layout.rs:5050-5105 | It falls by no more than what is before it exactly if it does not round up |
| `RelaxMargins.CountedIff` | libsld/src/layout.rs:4858-4870 | Bytes removed from a section are all counted in its capacity exactly if they are a multiple of the alignment or the capacity rounds up |
| `RelaxMargins.KeepsUpIff` | libsld/src/layout.rs:5000-5118 | In a layout of any sections, each address falls by no more than the end before it exactly if it does not round up |
| `RelaxMargins.FallsWithinDeleted` | libsld/src/layout.rs:4943-4946 | If no address rounds up, every address falls by at most the bytes deleted before it |
| `RelaxMargins.RealignedCallIsMissed` | libsld/src/layout.rs:4943-4955 | Two bytes go, a section falls by a page, and a forward call of a skipped section comes into reach |
| `RelaxMargins.UncountedCallIsMissed` | libsld/src/layout.rs:4943-4955 | Two bytes go uncounted, and a forward call of a skipped section comes into reach |
| `RelaxMargins.CallMarginIff` | libsld/src/elf_riscv64.rs:464-472 | For shifts of at most the given bytes, a call can come into reach exactly from its margin on, or one byte earlier if it is backward |
| `RelaxMargins.SkippedCallFitsIff` | libsld/src/layout.rs:4943-4955 | For shifts of at most the bytes deleted, a call of a skipped section could fit exactly if it is backward and one byte short of its margin |
| `RelaxMargins.BackwardCallIsMissed` | libsld/src/layout.rs:4943-4955 | A call that two bytes would bring into reach, with margin 3 |
| `RelaxMargins.SkippedCallStaysOut` | libsld/src/layout.rs:4943-4955 | In a layout where no address rounds up and the target's bytes are counted, every other skipped call stays out of reach |
| `RelaxMargins.LuiRelaxIff` | libsld/src/elf_riscv64.rs:483-494 | A load that is left alone could be relaxed after a fall exactly if the fall can take it below 32 pages or into the first page of its 4 GiB |
| `RelaxMargins.LuiMarginIs` | libsld/src/elf_riscv64.rs:495-511 | The margin is the distance to 32 pages and the rest of the value's page |
| `RelaxMargins.SkippedLuiRelaxIff` | libsld/src/layout.rs:4943-4955 | For falls of at most the bytes deleted, when a load of a skipped section could be relaxed |
| `RelaxMargins.SkippedLuiStays` | libsld/src/layout.rs:4943-4955 | In a layout where no address rounds up and the target's bytes are counted, a load that no such fall can reach is still left alone |
| `RelaxMargins.PageIsMissed` | libsld/src/layout.rs:4943-4955 | A load that one byte would bring to its short form, with a margin of a page |
| `RelaxMargins.FourGigabytesAreMissed` | libsld/src/layout.rs:4943-4955 | A load whose lui one byte would let go, with a margin of almost 4 GiB |
| `RelaxMargins.NoMarginIff` | libsld/src/elf_riscv64.rs:483-516 | A load is left alone without a margin exactly if its register has no short form and its lui has to stay |
| `RelaxMargins.LuiGoIff` | linker-utils/src/riscv64.rs:88-92 | Its lui could be deleted after a fall exactly if the fall can take the value into the first page of its 4 GiB |
| `RelaxMargins.UnrecordedLuiIsMissed` | libsld/src/elf_riscv64.rs:483-516 | Such a load, which one byte would let go and which asks for no further scan |
| `Versions.MarkVersions` | libsld/src/elf.rs:2519-2529 | Fails exactly for a used version beyond the definitions; otherwise marks exactly the used versions |
| `Versions.CountVersions` | libsld/src/elf.rs:2531-2605 | Fails exactly for an invalid index or missing name; otherwise counts the needed definitions, their string bytes with the library's name once, and their record bytes |
| `Versions.FirstIndex` | libsld/src/elf.rs:4031-4039 | The first index is the least above the global one and all of the output's own |
| `Versions.AssignStarts` | libsld/src/elf.rs:2608-2625 | Gives each library the sum of the counts before it, and fails exactly when 16 bits do not suffice |
| `Versions.ComputeVersionMapping` | libsld/src/elf.rs:2873-2887 | Numbers the needed versions consecutively and maps the others to the global one |
| `Versions.MappingInjective` | libsld/src/elf.rs:2873-2887 | No two versions of a library share an output index |
| `Versions.WriteVerneed` | libsld/src/elf_writer.rs:6058-6139 | Writes a Vernaux for each mapped definition, in order, with the distances that chain the records, and fails exactly for bad input or too little space |
| `Versions.WrittenBytesAre` | libsld/src/elf_writer.rs:6092-6125 | The string bytes that writing adds are those of the base's and the mapped names, each with a zero byte |
| `Versions.AuxChain` | libsld/src/elf_writer.rs:6113-6131 | Following the distances from the first Vernaux leads to each of them, stops at the last, and that one ends the record |
| `Versions.AuxesInOrder` | libsld/src/elf_writer.rs:6087-6137 | Vernaux records come in the order of the definitions, each with the mapped index and the name of its own |
| `Versions.HiddenBitIsIgnored` | libsld/src/elf_writer.rs:6196-6215 | The hidden bit of a symbol version is not part of the version |
| `Versions.UnversionedKeep` | libsld/src/elf_writer.rs:6196-6215 | Symbols without a version entry become global; local and global ones keep what they have |
| `Versions.WrittenIsCounted` | libsld/src/elf_writer.rs:6082-6139 | The number of Vernaux written is the number counted at sizing |
| `Versions.StringsAgreeIff` | libsld/src/elf.rs:2572-2595 | String bytes counted equal string bytes written exactly if the library has at most one base definition |
| `Versions.TwoBasesOverrun` | libsld/src/elf_writer.rs:6092-6099 | A library with two bases writes more than was counted |
| `Versions.VerneedChain` | libsld/src/elf_writer.rs:6069-6080 | Walking Verneed records by their distances visits every library that has one, in order, and stops after the last |
| `Versions.OneAuxPerDefinition` | libsld/src/elf_writer.rs:6087-6137 | As many Vernaux carry a needed version's index as there are definitions of it |
| `Versions.NamedOnceIffDefinedOnce` | libsld/src/elf_writer.rs:6087-6137 | Each needed version has one Vernaux exactly if it is defined exactly once other than as the base |
| `Versions.WellNumberedDefinesOnce` | libsld/src/elf.rs:2531-2605 | Distinct indexes with base index 1 define every needed version once |
| `Versions.LinkVersions` | libsld/src/elf_writer.rs:6058-6139 | Over any list of such libraries linking fails only for the input's own errors or for want of indexes |
| `Versions.VersymNamesOneVernaux` | libsld/src/elf_writer.rs:6196-6215 | A used symbol's version is carried by exactly one Vernaux of the whole output, in its own library and with its own version's name |
| `Versions.IndexesAreContiguous` | libsld/src/elf.rs:2608-2625 | Every index from the first on is carried by exactly one Vernaux, and no other index by any |
| `Versions.MisnumberedBaseCollides` | libsld/src/elf.rs:2531-2605 | Two accepted libraries, the first with a base of index 2, whose used symbols get the same version index |
| `Versions.StaysInRangeIff` | libsld/src/elf.rs:2873-2887 | A library's indexes stay inside its range exactly if its needed versions are no more than the definitions of them |
| `Versions.ShareIndexIff` | libsld/src/elf.rs:2608-2625 | Two libraries share an index exactly if the later needs a version and the earlier needs more than was counted from it up to the later |
| `Alignments.NextMultipleIsLeast` | libsld/src/alignment.rs:100-106 | Aligning up gives the least multiple at or above the value |
| `Alignments.AlignModuloIsLeast` | libsld/src/alignment.rs:112-125 | Gives the least place from the next multiple on with the reference's remainder |
| `FileLayouts.ChunksConcat` | libsld/src/compression.rs:160-161 | Chunking loses and repeats nothing |
| `FileLayouts.CompressSection` | libsld/src/compression.rs:154-192 | Compresses exactly if header and chunks are together smaller than the input, and gives them with their total size |
| `FileLayouts.HeaderReadsBack` | libsld/src/compression.rs:171-176 | The header's words are the kind, the input's size and the alignment |
| `FileLayouts.ChunksEven` | libsld/src/compression.rs:160-161 | All chunks but the last have the chunk size, and the last is not empty |
| `FileLayouts.ChunksInflateBack` | libsld/src/compression.rs:154-192 | With the header in front, inflating each chunk behind it and concatenating gives back the input |
| `FileLayouts.SectionInflatesBack` | libsld/src/compression.rs:154-192 | The bytes of the section are the header and then a stream that inflates to the input |
| `FileLayouts.ResizedCovers` | libsld/src/compression.rs:293-330 | Group sizes of a compressed part add up to the part's size exactly if one group has the epilogue; other parts are unaffected |
| `FileLayouts.Layout.UpdateAllocationSizes` | libsld/src/compression.rs:293-330 | A compressed section keeps one part of the compressed size, filled by the epilogue's group alone |
| `FileLayouts.Layout.UpdateFileOffset` | libsld/src/compression.rs:332-382 | Fails exactly if a segment would move; otherwise every section and part is placed as early as alignment allows |
| `FileLayouts.SectionsFollow` | libsld/src/compression.rs:356-377 | Placed sections are in output order, do not overlap, are aligned and as large as their parts |
| `FileLayouts.SectionsAreTight` | libsld/src/compression.rs:356-377 | The first section starts the file, and each next one within its alignment of the end of the one before |
| `FileLayouts.SegmentStaysIff` | libsld/src/compression.rs:341-354 | Each segment is compared with the end of everything placed before its start event |
| `FileLayouts.LaidOutSeparate` | libsld/src/compression.rs:332-382 | What placing leaves behind is what splitting needs |
| `FileLayouts.SortedChained` | libsld/src/file_writer.rs:426-434 | Sorting separate ranges by offset and end, empty ranges included, never makes an offset go backward and is a permutation |
| `FileLayouts.SplitOutputIntoSections` | libsld/src/file_writer.rs:420-456 | Every section gets its own range; paddings and sections tile the file up to the last section's end |
| `FileLayouts.SplitByAlignment` | libsld/src/file_writer.rs:459-484 | Every part gets the bytes at its own file offset and nothing is left |
| `FileLayouts.SplitByGroup` | libsld/src/file_writer.rs:376-402 | Groups share a covered part in order and completely |
| `FileLayouts.EpilogueHasSection` | libsld/src/compression.rs:313-330 | The epilogue's share of a compressed section is the whole section and exactly its chunks |
| `FileLayouts.WriteCompressed` | libsld/src/elf_writer.rs:4533-4550 | Fills exactly the slice with the concatenated chunks and touches nothing else |
| `FileLayouts.SplitCompressed` | libsld/src/compression.rs:81-82 | After resizing, placing and splitting, the epilogue holds exactly the section's range, of the size of the chunks |
| `RiscvAttributes.UlebRoundTrip` | linker-utils/src/utils.rs:62-65 | Every 64-bit value is read back, with the rest untouched |
| `RiscvAttributes.SplitJoined` | libsld/src/elf.rs:3349-3355 | Splitting a joined architecture string gives back its parts |
| `RiscvAttributes.AttributeRoundTrip` | libsld/src/elf.rs:3720-3786 | One attribute, followed by anything, is read back |
| `RiscvAttributes.ParsedIsGood` | libsld/src/elf.rs:3695-3789 | Everything the parser accepts can be written and read back |
| `RiscvAttributes.SectionSizeIs` | libsld/src/elf.rs:3651-3693 | The size computed at layout is the number of bytes emitted |
| `RiscvAttributes.LengthFields` | libsld/src/elf_writer.rs:4594-4610 | Both length fields count exactly the bytes they cover |
| `RiscvAttributes.SectionRoundTrip` | libsld/src/elf.rs:3695-3789 | Parsing what was written returns the same list if and only if maps are not empty, versions have one digit and names are distinct and free of underscore and NUL |
| `RiscvAttributes.SectionOfEveryKind` | libsld/src/elf.rs:3695-3789 | The bytes of a section with one attribute of every kind, and that the parser returns them |
| `RiscvAttributes.TwoDigitsAreLost` | libsld/src/elf.rs:3727-3750 | A minor version of 10 does not parse |
| `RiscvAttributes.WriteRiscvAttributes` | libsld/src/elf_writer.rs:4589-4641 | Succeeds exactly if the buffer has the computed size, and then holds the section |
| `RiscvAttributes.ProcessRiscvAttributes` | libsld/src/elf.rs:3695-3789 | The parsing loop agrees with the recursive parser |
| `DynamicSymbols.NameFound` | libsld/src/elf_writer.rs:6232-6253 | Every entry is that of its own symbol, and its name offset leads to the name and a zero byte |
| `DynamicSymbols.DynsymWriter.TakePrefix` | libsld/src/elf_writer.rs:1318-1331 | Splits off a writer for the next symbols and goes on behind it |
| `DynamicSymbols.WriteChunk` | libsld/src/elf_writer.rs:4785-4863 | Fills a chunk's entries and strings exactly |
| `DynamicSymbols.WriteDynamicSymbolDefinitions` | libsld/src/elf_writer.rs:4785-4863 | For every chunk size, symbols and strings come out as if written in one go |
| `DynamicSymbols.ChunkedVersionsOwn` | libsld/src/elf_writer.rs:4795-4858 | Without linker-script definitions every symbol has its version in its own slot, for every chunk size |
| `DynamicSymbols.VersionSlotIffNoScript` | libsld/src/elf_writer.rs:4828-4841 | A version goes to the symbol's own slot exactly if no linker-script definition precedes it in its chunk |
| `DynamicSymbols.TableSlotIffNoScript` | libsld/src/elf_writer.rs:4785-4863 | The same for every index of the whole table and every chunk size |
| `DynamicSymbols.ScriptShiftsVersions` | libsld/src/elf_writer.rs:4828-4841 | A linker-script definition hands its slot to the symbol after it |
| `GnuProperties.AddOk` | libsld/src/elf.rs:3432-3446 | Each merged property keeps the map at the AND or OR over all properties seen |
| `GnuProperties.MergeGnuPropertyNotes` | libsld/src/elf.rs:3421-3483 | Fails exactly for an unclassified type; otherwise lists exactly the properties kept by the OR, AND and AND-OR rules, strictly sorted, with the AND or OR of all inputs |
| `GnuProperties.MergeIgnoresOrder` | libsld/src/elf.rs:3421-3483 | The result depends only on which property lists there are |

## Left out

Modelling choices:

- Names, paths, symbols and other opaque values are numbers, strings or byte sequences; file contents are a finite map from path to content.
- Loader: which request's modifiers and referrer are kept when two scripts name the same file, LTO plugins, and the opening and mapping of files.
- Debug-only assertions: the model follows a release build, so `debug_assert` conditions do not stop it.
- Addresses and sizes are unbounded except where the code wraps or truncates on purpose; overflow of 64-bit sums is not modelled.
- PLT code bytes: a PLT entry is the pair of addresses given to the architecture's writer, which always succeeds.
- GnuHash.WriteTable: a bloom word is the set of its bits.
- SysvHash.WriteTable: the hash function is a parameter.
- EhFrameWriters.EhFrameWriter.WriteEhFrameRelocations: search-table entries are counted, their contents and sorting are not modelled, and neither is the application of relocations to the copied bytes.
- EhFrameAgreement.FdesPointAtTheirCies: sections shorter than 4 GiB, because the code keeps CIE positions in 32 bits; the sizes agree for longer ones too.
- EhFrameAgreement.LinkEhFrames: speaks of sections that the writer accepts; which it rejects is stated by the writer's own contract.
- Relaxation.PassAligns: the reach of shortened jumps after later movement is not claimed, because the scan measures from input offsets; paddings ask for no further scan.
- Relaxation.RelaxSection: one section; capacities and part sizes of groups are not modelled.
- Versions.CountVersions: the count itself is not limited to 16 bits; the assignment after it is.
- Versions.WriteVerneed: names stand for their string-table offsets, and for the hashes computed from them; flags are always zero.
- FileLayouts.Layout.UpdateFileOffset: merged section layouts; sections that no output event names.
- FileLayouts.Layout.UpdateAllocationSizes: memory sizes and merged section layouts.
- FileLayouts.CompressSection: compressors are any function from bytes to bytes that succeeds; sizes, kinds and alignments fit their 32-bit and 64-bit fields.
- Loading.TlsLoads: the second word of a TLS descriptor is stated as written, zero; the loader fills it together with the first.
- RiscvAttributes.ProcessRiscvAttributes: replacement of bytes that are not UTF-8.
- DynamicSymbols.WriteDynamicSymbolDefinitions: chunks are written one after the other; as they own disjoint slices, their order does not matter. Symbol fields other than the name are one opaque value.
- GnuProperties.MergeGnuPropertyNotes: a property word is the set of its bits, and the classification of types is a parameter.

Not modelled, because it is foreign, platform or user-interface code, or would only add easy members:

- zlib, zstd, blake3, DWARF reading and the object-file parsers.
- The value of each relocation, instruction patching, and relaxation on other architectures.
- Section rules, symbol resolution, garbage collection of sections themselves, and segment layout.
- Incremental linking, Mach-O and Wasm output, linker plugins.
- Options, diagnostics, timing and traces.
- Merging of RISC-V attributes and e_flags of several inputs.
