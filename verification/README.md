# Verified model of the COFF linker's core

llvm-ld ships a copy of LLVM's COFF linker and promises that its output stays byte for byte what the
linker produces. This project models the parts of the linker that decide those bytes and are hard to
get right, and proves what they are for. `dafny verify dfyconfig.toml` checks everything.

- **Type deduplication** (`GHashCell`, `GHashTable`, `GHashRuns`, `GHashInsert`, `TypeStreams`,
  `TypeMeaning`, `TypeMerger`, `GHashMerge`, `TypeSources`). Threads insert type records into a shared hash table by
  loads and weak compare-and-swap, as interleaved atomic steps under an arbitrary schedule. The
  winners are sorted and ranked, their cells overwritten with PDB indices, and every record is copied
  with its references rewritten. Proved: the result does not depend on the schedule, the table never
  fills up, no thread starves, the merged streams mean what the sources meant, in the order they were
  given, and they are in topological order. Every fair schedule lets all insertions finish, and there are such schedules.
- **Identical COMDAT folding** (`IcfSections`, `IcfPass`, `IcfShards`, `IcfInterleave`, `IcfSeeding`,
  `IcfMeaning`, `IcfRun`, `Icf`, `IcfFold`). Partition refinement in place, with two class numbers per section and
  sharded sweeps. Proved: the loop ends with the coarsest stable partition, which is bisimilarity in
  the sense in which the passes compare, spelled out header by header, relocation by relocation and
  child by child; shards that take turns class by class compute what one
  sequential sweep computes; one section, the earliest, stands for each class; and exactly when the
  passes compare all there is to compare.
- **Import tables** (`ImportFiles`, `ImportTable`, `ImportImage`, `ImportViews`). One set of tables
  that a native and an EC loader read differently once ARM64X relocations are applied. Proved: what
  either loader reads, entry by entry, for every DLL.
- **Call graph clustering** (`CallGraph`, `CallGraphRun`). Union-find with path halving beside
  circular lists that are spliced. Proved: the two structures agree throughout, and the final order is
  a bijection onto consecutive numbers with every cluster contiguous.
- **Section garbage collection** (`MarkLive`), exact reachability with a worklist.
- **Relocation and encodings** (`Subsections`, `DynamicRelocs`, `DynamicRelocsRead`, `Instructions`).
  Relocating by pieces against relocating at once; sizing, writing and reading back ARM64X dynamic
  relocations; patched Thumb and ARM64 instructions.
- **UTF-8 validation** (`Utf8`) against the grammar in section 4 of RFC 3629.

Loops over arrays and fields are methods over arrays and classes; each is tied by its `ensures` to a
function of the old state, and the properties are lemmas about those functions. `Collections`,
`Words` and `Options` hold what the modules share.

## Findings

Three things the code is meant to do it does not always do. The model keeps the code as it is, shows
an input, and proves exactly when the code does meet the expectation.

- **Entry thunks in folding** (llvm-project/lld/COFF/ICF.cpp:183-200, 261-269). Entry thunks are
  compared by the class numbers of their sections only, although the output holds their addresses
  (llvm-project/lld/COFF/Writer.cpp:2664-2670). That misses two things.
  - *Offsets.* Thunks at two offsets of one section, or of two sections that are folded, count as
    equal. `IcfRun.TwoOffsetsFolded` and `IcfFold.ThunkIsLost` have two such functions: however many
    passes there are, they are folded, and one loses its thunk.
  - *Sections that cannot be folded.* They all have number 0 in the second slot, and if the first
    variable pass splits nothing that slot is the only one used. `IcfRun.TwoThunksFolded` has two
    functions whose thunks lie in two such sections, and which are folded.

  `IcfSections.Sense` names the three ways of telling thunks apart, by one pass, by two, and fully.
  `IcfRun.ExactIff` and `IcfFold.FoldingIsExact` say exactly when folding is right in the full sense:
  when no two sections that agree otherwise have their own thunks at different offsets, and there is a
  second variable pass or no two sections that agree otherwise have their own thunks in two different
  unfoldable sections. `IcfRun.FoldableThunksDoNotClash` gives a simple guard: the entry thunk of
  every foldable section is the start of a section that can be folded.
- **Imports by ordinal** (llvm-project/lld/COFF/InputFiles.cpp:1260-1264,
  llvm-project/lld/COFF/DLL.cpp:740-764). The test whether two files import the same thing compares
  only ordinal and hint if the file on its left has no name, so ordinal 5 is taken for a name with
  hint 5, but not the other way round. `ImportViews.OrdinalBecomesName` follows such a pair through to
  the image: the native loader is asked for the name although the native file imports by ordinal.
  `ImportFiles.SameImportExact` and `ImportFiles.PairsImportAlike` say exactly when the test, and a
  merged pair, are right.
- **Dynamic relocations without entries** (llvm-project/lld/COFF/Chunks.cpp:1318-1320). After its loop
  the writer closes the last block without asking whether there is one. `DynamicRelocs.WriteEntries`
  is the loop for every list, the empty one included; `DynamicRelocs.LastPageHeader` is the header it
  leaves, and is absent exactly if there are no entries. `DynamicRelocs.WriteBlocks` needs one.

## Model

| member | source | states |
|---|---|---|
| GHashCell.CellOrder | llvm-project/lld/COFF/DebugTypes.cpp:971-1003 | comparing cells as integers prefers types to items, then earlier sources, then earlier records |
| GHashTable.StepPreservesInv | llvm-project/lld/COFF/DebugTypes.cpp:1034-1065 | every atomic step of every thread keeps the table invariant, and a filled cell keeps its key and only moves to smaller values |
| GHashTable.AdvancePath | llvm-project/lld/COFF/DebugTypes.cpp:1056-1064 | when the probe comes back to its start, every cell has been seen filled with another key |
| GHashRuns.KeysUnique | llvm-project/lld/COFF/DebugTypes.cpp:1034-1065 | no ghash ever occupies two cells |
| GHashRuns.FinishedTable | llvm-project/lld/COFF/DebugTypes.cpp:1106-1128 | after any complete run the table holds exactly one cell per ghash, the minimum of those inserted with it, and each record's index leads to it |
| GHashRuns.ScheduleIndependence | llvm-project/lld/COFF/DebugTypes.cpp:1023-1067 | two complete runs under any schedules and table sizes end with the same cells, and each record reads the same cell |
| GHashRuns.NeverFull | llvm-project/lld/COFF/DebugTypes.cpp:1056-1063 | a table at least as large as the number of distinct ghashes is never reported full, by the pigeonhole principle |
| GHashRuns.CapacityNeeded | llvm-project/lld/COFF/DebugTypes.cpp:1089-1095 | a smaller table cannot hold a complete run |
| GHashRuns.SumIsEnough | llvm-project/lld/COFF/DebugTypes.cpp:1089-1098 | the sum of the input counts is at least the number of distinct ghashes |
| GHashRuns.InsertionSucceeds | llvm-project/lld/COFF/DebugTypes.cpp:1096-1128 | with a table of that size no schedule makes an insertion fail |
| GHashRuns.RetriesBounded | llvm-project/lld/COFF/DebugTypes.cpp:1044-1055 | apart from spurious failures, the steps a thread needs from any reachable state are bounded whatever the others do |
| GHashRuns.InsertionBounded | llvm-project/lld/COFF/DebugTypes.cpp:1034-1065 | from the empty table the bound is three steps per cell and one per record with the same ghash, for each record of the thread |
| GHashRuns.FairScheduleCompletes | llvm-project/lld/COFF/DebugTypes.cpp:1096-1128 | with a table of the linker's size every schedule that gives each thread more turns than its bound lets all insertions finish |
| GHashRuns.FairScheduleExists | llvm-project/lld/COFF/DebugTypes.cpp:1111-1128 | there is such a schedule for every input |
| GHashInsert.ConcurrentTable.Move | llvm-project/lld/COFF/DebugTypes.cpp:1034-1065 | one atomic step on the shared array is the transition of the model and keeps the invariant |
| GHashInsert.ConcurrentTable.MoveAll | llvm-project/lld/COFF/DebugTypes.cpp:1111-1128 | a whole schedule on the shared array, which never reports a full table if it has room for every ghash |
| TypeStreams.EntriesUnique | llvm-project/lld/COFF/DebugTypes.cpp:1139-1144 | the sorted list of winners is determined by the input |
| TypeStreams.RankIsPosition | llvm-project/lld/COFF/DebugTypes.cpp:1150-1177 | concatenating each source's winners in source order gives the rank order, for types and for items |
| TypeStreams.TopologicalOrder | llvm-project/lld/COFF/DebugTypes.cpp:1130-1144 | a merged record's reference into its own stream goes to a strictly smaller index if source references go backward |
| TypeStreams.MergingPreservesMeaning | llvm-project/lld/COFF/DebugTypes.cpp:1232-1241 | unfolding the merged record at the mapped index gives the tree that unfolding the source record gives |
| TypeStreams.DenotesOnce | llvm-project/lld/COFF/DebugTypes.cpp:214-253 | a source record stands for at most one tree |
| TypeMeaning.EveryRecordDenotes | llvm-project/lld/COFF/DebugTypes.cpp:227-253 | where references are in range and go backward every record stands for a tree |
| TypeMeaning.SameHashSameTree | llvm-project/lld/COFF/DebugTypes.cpp:842-867 | if a ghash is a collision-free function of a record and the ghashes it refers to, equal ghashes mean equal trees of any depth |
| TypeMeaning.SameTreeSameHash | llvm-project/lld/COFF/DebugTypes.cpp:869-890 | and equal trees mean equal ghashes |
| TypeMeaning.MergedMeansTheSame | llvm-project/lld/COFF/DebugTypes.cpp:1074-1193 | with such ghashes merging preserves the meaning of every record |
| TypeMeaning.MergedIffSameMeaning | llvm-project/lld/COFF/DebugTypes.cpp:1074-1193 | two records are merged into one exactly if they stand for the same tree |
| TypeMeaning.MergedRefersBackward | llvm-project/lld/COFF/DebugTypes.cpp:1130-1138 | with such ghashes the merged streams are in topological order |
| TypeMeaning.NoDuplicates | llvm-project/lld/COFF/DebugTypes.cpp:1130-1177 | no two merged records stand for the same tree |
| TypeMerger.Merger.Collect | llvm-project/lld/COFF/DebugTypes.cpp:1139-1143 | collects every filled cell once |
| TypeMerger.Merger.Rank | llvm-project/lld/COFF/DebugTypes.cpp:1139-1177 | sorts, finds the first item, lists every winner under its source, and puts PDB indices into the winners' cells |
| TypeMerger.Merger.AssignIndices | llvm-project/lld/COFF/DebugTypes.cpp:1164-1177 | the ranking loop overwrites exactly the cells of the winners with their indices |
| TypeMerger.Merger.FillMap | llvm-project/lld/COFF/DebugTypes.cpp:1232-1241 | every record's entry becomes the index of its winner, or stays untranslated |
| TypeMerger.Merger.Remap | llvm-project/lld/COFF/DebugTypes.cpp:735-741 | gives a source its final index maps, with the PCH prefix or the type server's types, and merges its winners |
| TypeMerger.TpiMapResolves | llvm-project/lld/COFF/DebugTypes.cpp:528-546 | a type index map, PCH prefix included, sends each array index to the final index of the record it means |
| TypeMerger.Merger.MergeUniqueRecords | llvm-project/lld/COFF/DebugTypes.cpp:687-733 | walking the records beside the re-sorted list copies exactly the winners, in record order |
| TypeMerger.Merger.MergeTypeRecord | llvm-project/lld/COFF/DebugTypes.cpp:641-665 | appends the remapped record to the stream of its kind and to no other |
| TypeMerger.Merger.RemapTypesInRecord | llvm-project/lld/COFF/DebugTypes.cpp:227-253 | every reference is rewritten through the right map; what is out of range becomes untranslated |
| TypeMerger.Merger.RemapAll | llvm-project/lld/COFF/DebugTypes.cpp:1179-1184 | in any order that respects dependencies every source ends with the same maps and records |
| TypeMerger.Merger.Emit | llvm-project/lld/COFF/PDB.cpp:349-363 | concatenating the sources' merged records puts each winner at its assigned index |
| GHashMerge.SortDependencies | llvm-project/lld/COFF/DebugTypes.cpp:1195-1209 | lists dependencies first, otherwise in the existing order |
| GHashMerge.DependenciesFirstOk | llvm-project/lld/COFF/DebugTypes.cpp:1195-1209 | that order is a permutation in which dependencies precede objects and nothing else changes places |
| GHashMerge.OrderedWellFormed | llvm-project/lld/COFF/DebugTypes.cpp:1195-1209 | after it every PCH object and type server precedes what builds on it |
| GHashMerge.MergeTypesWithGHash | llvm-project/lld/COFF/DebugTypes.cpp:1074-1193 | streams and all index maps depend on the input alone, not on schedule, table size or remapping order |
| TypeSources.OrderedIs | llvm-project/lld/COFF/DebugTypes.cpp:1195-1209 | reordering keeps every ghash and record of a source, and the source it builds on is the same one under its new number |
| TypeSources.SameMeaning | llvm-project/lld/COFF/DebugTypes.cpp:1195-1209 | a record means the same tree among the sources as given and after reordering |
| TypeSources.GivenSourcesKeepMeaning | llvm-project/lld/COFF/DebugTypes.cpp:1074-1193 | for each record of each source as given, its map leads to a merged record that means what the record meant there; the one left out of a PCH object becomes an untranslated index |
| IcfSections.EqualsIsEquivalence | llvm-project/lld/COFF/ICF.cpp:130-205 | for fixed class numbers both comparisons are equivalence relations |
| IcfSections.ConstantPassAgrees | llvm-project/lld/COFF/ICF.cpp:148-178 | sections the constant pass leaves together never refer, in step, to two different unfoldable sections or to one of each kind |
| IcfSections.BisimilarEquals | llvm-project/lld/COFF/ICF.cpp:148-205 | no comparison separates bisimilar sections while their classes are together |
| IcfSections.StableIsBisimilar | llvm-project/lld/COFF/ICF.cpp:181-205 | sections that a stable partition holds together are bisimilar |
| IcfMeaning.BisimilarIff | llvm-project/lld/COFF/ICF.cpp:130-205 | bisimilar sections agree in machine, name, flags, size, checksum, contents and relocations, and their thunks and the children whose names are not of debug or CFGuard sections correspond in step, the same or bisimilar; and two sections that agree so are bisimilar |
| IcfMeaning.OthersHaveNoInfluence | llvm-project/lld/COFF/ICF.cpp:130-144 | debug and CFGuard children have no influence on bisimilarity |
| IcfSeeding.SeedingIsSafe | llvm-project/lld/COFF/ICF.cpp:279-295 | the hash rounds never separate bisimilar sections, and hash numbers never meet the numbers of unfoldable sections |
| IcfSeeding.MixedIs | llvm-project/lld/COFF/ICF.cpp:286-295 | a hash round adds the numbers of all regular targets modulo 2^32 and sets the highest bit |
| IcfSeeding.SeededIs | llvm-project/lld/COFF/ICF.cpp:261-295 | unfoldable sections are numbered in order from 1, foldable ones have the twice mixed content hash |
| IcfPass.RangeRefined | llvm-project/lld/COFF/ICF.cpp:104-127 | a sweep splits classes exactly by the comparison and numbers every group by its end |
| IcfPass.ClassesGrow | llvm-project/lld/COFF/ICF.cpp:116-123 | a sweep that splits anything has strictly more classes than before |
| IcfPass.IdsBounded | llvm-project/lld/COFF/ICF.cpp:116-119 | there are never more classes than sections |
| IcfShards.CutsTile | llvm-project/lld/COFF/ICF.cpp:238-245 | the shard boundaries ascend, fall only between classes, and tile the sections |
| IcfShards.ShardedIsSequential | llvm-project/lld/COFF/ICF.cpp:246-250 | whole shards, in any order, compute what one sequential sweep computes |
| IcfInterleave.Turn | llvm-project/lld/COFF/ICF.cpp:246-250 | a shard that segregates its next class leaves every other shard, wherever it has come to, on its way to the same result |
| IcfInterleave.InterleavedIsSequential | llvm-project/lld/COFF/ICF.cpp:215-252 | shards that take turns class by class, in any way, end with the order, the numbers and the repeat flag of one sequential sweep |
| Icf.ICF.ForEachShard | llvm-project/lld/COFF/ICF.cpp:234-251 | on the arrays, whatever the turns, the new state and the repeat flag are those of the sequential sweep |
| Icf.ICF.StablePartition | llvm-project/lld/COFF/ICF.cpp:105-114 | moves the sections equal to the leader to the front and keeps the order within both parts |
| Icf.ICF.Segregate | llvm-project/lld/COFF/ICF.cpp:103-127 | splits one class into its groups, and asks for another round exactly if it split anything |
| Icf.ICF.ForEachClassRange | llvm-project/lld/COFF/ICF.cpp:207-222 | visits every class of a range once |
| Icf.ICF.ForEachClass | llvm-project/lld/COFF/ICF.cpp:224-252 | in shards that take turns or not, the new state is that of the sequential sweep |
| Icf.ICF.Seed | llvm-project/lld/COFF/ICF.cpp:261-295 | numbers unfoldable sections and mixes the hashes of the others twice |
| Icf.ICF.Run | llvm-project/lld/COFF/ICF.cpp:257-311 | ends, after at most one variable pass more than there are sections, with classes that are exactly bisimilarity, strict or weak in the thunks as the first variable pass decides |
| IcfRun.FirstPassSplits | llvm-project/lld/COFF/ICF.cpp:306-311 | the first variable pass splits something exactly if the constant pass left sections together that are not even weakly bisimilar |
| IcfRun.StablePassIsExact | llvm-project/lld/COFF/ICF.cpp:307-311 | when a pass splits nothing, sharing a class is the same as being bisimilar |
| IcfRun.WeakIsStrictIff | llvm-project/lld/COFF/ICF.cpp:183-200 | comparing thunks once is as good as comparing them twice exactly if no two sections that agree otherwise have their thunks in two different unfoldable sections |
| IcfRun.StrictIsFullIff | llvm-project/lld/COFF/ICF.cpp:183-200 | comparing thunks by class is as good as comparing chunk and offset exactly if no two sections that agree otherwise have their thunks at different offsets |
| IcfRun.PassesSufficeIff | llvm-project/lld/COFF/ICF.cpp:181-205 | one or two passes see all there is to see exactly under the two conditions together |
| IcfRun.ExactIff | llvm-project/lld/COFF/ICF.cpp:303-311 | final classes are bisimilarity in the full sense if and only if the passes suffice |
| IcfRun.FoldableThunksDoNotClash | llvm-project/lld/COFF/ICF.cpp:197-200 | the passes suffice if every foldable section's thunk is the start of a foldable one |
| IcfRun.TwoThunksFolded | llvm-project/lld/COFF/ICF.cpp:261-269 | two functions with thunks in different sections that share a class whatever the hash |
| IcfRun.TwoOffsetsFolded | llvm-project/lld/COFF/ICF.cpp:183-200 | two functions with thunks at different offsets that share a class however many passes there are |
| IcfFold.ThunkIsLost | llvm-project/lld/COFF/ICF.cpp:316-325 | of these two functions one is removed, which is not folding in the full sense |
| IcfFold.Folder.Replace | llvm-project/lld/COFF/Chunks.cpp:772-776 | the folded section dies and points to the leader, which takes the larger alignment; no other section changes |
| IcfFold.Folder.FoldAll | llvm-project/lld/COFF/ICF.cpp:316-325 | the last sweep, in shards that take turns in any way, folds every class into its first section and touches nothing else |
| IcfFold.FoldingIsCanonical | llvm-project/lld/COFF/ICF.cpp:316-325 | one section of every class stays live, stands for all, and has the largest alignment |
| IcfFold.DoICF | llvm-project/lld/COFF/ICF.cpp:257-329 | of all bisimilar sections the earliest one stands for the others, alone stays live, and has the largest alignment; unfoldable sections are untouched |
| IcfFold.FoldingIsExact | llvm-project/lld/COFF/ICF.cpp:306-325 | what is folded agrees in the full sense, addresses of entry thunks included, if and only if the passes suffice |
| ImportFiles.SameImportExact | llvm-project/lld/COFF/InputFiles.cpp:1260-1264 | the test is right unless the left file imports by ordinal and the right one by a name with that hint |
| ImportFiles.SameImportIsNotSymmetric | llvm-project/lld/COFF/InputFiles.cpp:1260-1264 | two files for which the test depends on the side |
| ImportFiles.MergeHybrid | llvm-project/lld/COFF/DLL.cpp:728-765 | keeps one file per pair and all others, and records partners in both directions |
| ImportFiles.PairedIff | llvm-project/lld/COFF/DLL.cpp:735-765 | neighbours are paired exactly if one is EC, one native, they import the same by the test, and the earlier one is not paired already |
| ImportFiles.NeighboursMerge | llvm-project/lld/COFF/DLL.cpp:735-765 | of two neighbours that import one name, or one ordinal, for EC and for native code, at least one is merged |
| ImportFiles.FilesConserved | llvm-project/lld/COFF/DLL.cpp:731-765 | kept and swallowed files together are the input files |
| ImportFiles.PartnersAgree | llvm-project/lld/COFF/DLL.cpp:760-764 | partners know each other, and one is native and the other EC |
| ImportFiles.KeptIsEc | llvm-project/lld/COFF/DLL.cpp:750-758 | of every pair exactly the native half is swallowed |
| ImportFiles.PairsImportAlike | llvm-project/lld/COFF/DLL.cpp:740-741 | the halves of a pair import the same thing exactly if both have a name or neither has |
| ImportFiles.LessIsKind | llvm-project/lld/COFF/DLL.cpp:769-774 | the comparison orders native-only, merged, EC-only |
| ImportFiles.SortSorts | llvm-project/lld/COFF/DLL.cpp:767-775 | the sorted list has no file after one that compares greater |
| ImportFiles.SortStable | llvm-project/lld/COFF/DLL.cpp:767-775 | files of one kind keep their order |
| ImportTable.IdataContents.MakeEntry | llvm-project/lld/COFF/DLL.cpp:789-801 | lookup and address chunk ask for the same name and hint, or the same ordinal |
| ImportTable.IdataContents.Hide | llvm-project/lld/COFF/DLL.cpp:813-831 | the native view gets a null in place of the import; the EC view, after the relocations, finds the import there and a null where it has moved |
| ImportTable.IdataContents.AddImports | llvm-project/lld/COFF/DLL.cpp:785-850 | the four tables grow in parallel, each import in its slot and only the first EC-only one masked, and no chunk is laid out twice |
| ImportTable.IdataContents.Terminate | llvm-project/lld/COFF/DLL.cpp:851-859 | the tables end in nulls or in the chunks that masking has left |
| ImportTable.IdataContents.Locate | llvm-project/lld/COFF/DLL.cpp:861-865 | each symbol, and that of its native partner, is located at its own slot |
| ImportTable.IdataContents.AddDir | llvm-project/lld/COFF/DLL.cpp:867-894 | the directory entry starts at the DLL's slots, past the native-only ones on pure EC; on ARM64X both fields move by as much in the EC view |
| ImportImage.FinalCounts | llvm-project/lld/COFF/DLL.cpp:728-775 | each input file is in the final list or swallowed, once |
| ImportImage.Create | llvm-project/lld/COFF/DLL.cpp:719-898 | the tables, directory entries, locations and relocations of all DLLs are complete and do not disturb each other |
| ImportViews.TwoViews | llvm-project/lld/COFF/DLL.cpp:779-895 | on ARM64X, up to the first null, the native view reads the native-only then the merged imports and the EC view the merged then the EC-only ones, in lookup and address table alike |
| ImportViews.PureEcView | llvm-project/lld/COFF/DLL.cpp:871-875 | on pure ARM64EC the loader reads the merged then the EC-only imports |
| ImportViews.PlainView | llvm-project/lld/COFF/DLL.cpp:779-895 | elsewhere it reads all imports in order |
| ImportViews.DirNamesDll | llvm-project/lld/COFF/DLL.cpp:867-894 | every directory entry names the DLL of its first import |
| ImportViews.PartsComplete | llvm-project/lld/COFF/DLL.cpp:728-775 | every file is in exactly the part of its kind, and a swallowed one is represented by its partner |
| ImportViews.SymbolsFindTheirSlots | llvm-project/lld/COFF/DLL.cpp:836-865 | a symbol's location is a slot that asks for its import, in both views except where the native one ends; the auxiliary slots beside it are its own, or null for native-only imports |
| ImportViews.SlotsDiffer | llvm-project/lld/COFF/DLL.cpp:861-865 | no two imports of an image share a slot |
| ImportViews.OrdinalBecomesName | llvm-project/lld/COFF/DLL.cpp:740-764 | an image in which the native loader is asked for a name although the native file imports by ordinal |
| CallGraph.GetLeader | llvm-project/lld/COFF/CallGraphSort.cpp:131-137 | path halving ends at the leader and changes nobody's leader |
| CallGraph.SpliceRings | llvm-project/lld/COFF/CallGraphSort.cpp:139-150 | two disjoint circular lists become one, the second after the first |
| CallGraph.MergeKeepsVertices | llvm-project/lld/COFF/CallGraphSort.cpp:139-150 | after a merge every cluster is still a circular list of the nodes that follow its leader, with their total size and weight, within the size limit |
| CallGraph.MergeKeepsForest | llvm-project/lld/COFF/CallGraphSort.cpp:184-185 | the union-find forest and the lists still agree |
| CallGraph.StepOk | llvm-project/lld/COFF/CallGraphSort.cpp:164-186 | processing one node keeps all that, and every node not processed yet is its own leader |
| CallGraph.StepJoinsIff | llvm-project/lld/COFF/CallGraphSort.cpp:164-186 | a node joins the cluster of its likeliest caller exactly if that call has more than a tenth of its weight, the caller is in another cluster, both are at most 1 MiB together, and the density stays at least an eighth; otherwise nothing changes |
| CallGraphRun.SortDescends | llvm-project/lld/COFF/CallGraphSort.cpp:160-162 | the sort is by decreasing density |
| CallGraphRun.SortStable | llvm-project/lld/COFF/CallGraphSort.cpp:160-162 | clusters of equal density keep their order |
| CallGraphRun.CallGraphSort.Process | llvm-project/lld/COFF/CallGraphSort.cpp:164-186 | one turn of the loop on the arrays is that step |
| CallGraphRun.CallGraphSort.Run | llvm-project/lld/COFF/CallGraphSort.cpp:154-208 | the whole run: clusters as after all steps, and the members of the non-empty ones numbered consecutively from the least int, by density |
| CallGraphRun.OrderIsInjective | llvm-project/lld/COFF/CallGraphSort.cpp:197-208 | different sections get different numbers, so the map is a bijection onto consecutive integers |
| CallGraphRun.OrderedSections | llvm-project/lld/COFF/CallGraphSort.cpp:188-208 | exactly the members of clusters of positive size get one |
| CallGraphRun.SizedSectionsOrdered | llvm-project/lld/COFF/CallGraphSort.cpp:188-192 | every section that has a size gets one |
| CallGraphRun.ClustersContiguous | llvm-project/lld/COFF/CallGraphSort.cpp:201-208 | each cluster is contiguous in the order, leader first |
| CallGraphRun.Build | llvm-project/lld/COFF/CallGraphSort.cpp:75-120 | one singleton cluster per section that some kept call mentions, with its total weight and best edge |
| CallGraphRun.BestIsHeaviest | llvm-project/lld/COFF/CallGraphSort.cpp:111-116 | the remembered edge is the first heaviest call from another section |
| CallGraphRun.MentionedSpelledOut | llvm-project/lld/COFF/CallGraphSort.cpp:88-107 | the nodes are the callers and callees of calls inside one output section |
| CallGraphRun.NodeSpelledOut | llvm-project/lld/COFF/CallGraphSort.cpp:88-120 | a node has its section's size, the sum of the weights of the calls into it modulo 2^64, and the first heaviest of the calls from other sections of its output section |
| MarkLive.MarksClosed | llvm-project/lld/COFF/MarkLive.cpp:46-64 | marking one symbol marks the least set closed under exit thunks |
| MarkLive.Marker.AddSym | llvm-project/lld/COFF/MarkLive.cpp:52-64 | marks exactly that set |
| MarkLive.Marker.Traverse | llvm-project/lld/COFF/MarkLive.cpp:74-85 | marks everything the section refers to and nothing that is not needed |
| MarkLive.Marker.Mark | llvm-project/lld/COFF/MarkLive.cpp:20-87 | the live bits are those set from the start and those of what some path leads to from a root, and each section to be traversed is in the worklist exactly once |
| MarkLive.LeastIsReachable | llvm-project/lld/COFF/MarkLive.cpp:20-87 | the least closed set holds exactly what a path of references, children, thunks and exit thunks leads to from a root |
| Subsections.WriteTo | llvm-project/lld/COFF/Chunks.cpp:405-428 | copies the section and applies each relocation that starts in it to the bytes under it, leaving all other bytes; what follows it changes only by relocations that spill over |
| Subsections.SpillingWrites | llvm-project/lld/COFF/Chunks.cpp:405-428 | where relocations do not overlap, each has patched the original bytes under it, and every other byte is the original one |
| Subsections.WholeWrites | llvm-project/lld/COFF/Chunks.cpp:405-428 | the same for a section whose relocations stay inside |
| Subsections.NothingSpills | llvm-project/lld/COFF/Chunks.cpp:417-426 | if no relocation crosses the end of the section, what follows it is left alone |
| Subsections.WriteSubsection | llvm-project/lld/COFF/Chunks.cpp:491-513 | writes the bytes the whole section has there, and leaves the index at the first relocation past the piece |
| Subsections.WriteAll | llvm-project/lld/COFF/Chunks.cpp:489-513 | relocating tiling pieces with the carried index gives the bytes of relocating the section at once: each relocation's patch where it lies, the contents elsewhere |
| DynamicRelocs.DynamicRelocsChunk.Finalize | llvm-project/lld/COFF/Chunks.cpp:1256-1276 | the entries are sorted and the size is that of the bytes written later |
| DynamicRelocs.SortSorts | llvm-project/lld/COFF/Chunks.cpp:1256-1260 | the sort is by offset and leaves entries at one offset in order |
| DynamicRelocs.DynamicRelocsChunk.Set | llvm-project/lld/COFF/Chunks.cpp:1279-1288 | the first entry at an offset gets the value, and the size stays right |
| DynamicRelocs.SameShapeSameSize | llvm-project/lld/COFF/Chunks.cpp:1199-1209 | values do not influence the size |
| DynamicRelocs.BlockFields | llvm-project/lld/COFF/Chunks.cpp:1302-1319 | a block begins with its page and its length, a multiple of four |
| DynamicRelocs.WriteEntries | llvm-project/lld/COFF/Chunks.cpp:1298-1317 | the loop lays down all blocks but the last one's size and padding, and leaves a page header exactly if there were entries |
| DynamicRelocs.DynamicRelocsChunk.WriteTo | llvm-project/lld/COFF/Chunks.cpp:1290-1325 | fills a buffer of that size with the header and one block per page |
| DynamicRelocsRead.FixupReads | llvm-project/lld/COFF/Chunks.cpp:1211-1253 | one entry reads back, signed deltas with their scale included |
| DynamicRelocsRead.LowByteFirst | llvm-project/lld/COFF/Chunks.cpp:1211-1253 | numbers of two, four and eight bytes are read with the low byte first |
| DynamicRelocsRead.BodyReads | llvm-project/lld/COFF/Chunks.cpp:1298-1319 | the blocks tile the body and read back as the entries |
| DynamicRelocsRead.ChunkReads | llvm-project/lld/COFF/Chunks.cpp:1290-1325 | the whole chunk reads back, its header included |
| DynamicRelocsRead.FinalizeAndWrite | llvm-project/lld/COFF/Chunks.cpp:1256-1325 | sizing and writing any non-empty list makes bytes from which a loader reads the entries in sorted order |
| Instructions.MOVEncoding | llvm-project/lld/COFF/Chunks.cpp:176-187 | where the four parts of a 16-bit immediate lie in the two halves of a MOVW or MOVT |
| Instructions.MOVImmediate | llvm-project/lld/COFF/Chunks.cpp:171-187 | the patched MOV has the new 16-bit immediate |
| Instructions.MOVStays | llvm-project/lld/COFF/Chunks.cpp:176-184 | and is still the MOVW or MOVT it was |
| Instructions.MOV32TAdds | llvm-project/lld/COFF/Chunks.cpp:189-196 | the patched pair loads the old constant plus the value modulo 2^32 |
| Instructions.MOV32TKeepsOpcodes | llvm-project/lld/COFF/Chunks.cpp:189-196 | opcode and register bits stay |
| Instructions.AddrPatched | llvm-project/lld/COFF/Chunks.cpp:251-261 | the new ADR or ADRP immediate is the distance in units modulo 2^21, no other bit changes |
| Instructions.ImmPatched | llvm-project/lld/COFF/Chunks.cpp:266-271 | the immediate grows by the value within its range, no other bit changes |
| Instructions.ThunkReachesTarget | llvm-project/lld/COFF/Chunks.cpp:867-881 | decoded and executed (section C6.2 of the Arm Architecture Reference Manual, DDI 0487), the three instructions of the patched thunk branch to the target for all RVAs and page-aligned bases, and change no register but x16 |
| Utf8.AcceptedIsUtf8 | src/llvm_ld.cpp:30-40 | the checks accept exactly the encodings of sequences of non-zero scalar values |
| Utf8.ValidUtf8 | src/llvm_ld.cpp:30-40 | the loop returns that answer and reads inside the array only |

## Left out

- TypeMerger.Merger.MergeTypeRecord: does not model padding to four bytes, record sizes and hashes in the PDB, and the map from function ids to types; a record is its leaf, payload and references.
- TypeMerger.Merger.RemapTypesInRecord: takes the references as a list; finding them in the bytes, and the error for a record that is too short, are left out.
- TypeMerger.Merger.RemapAll: remaps one source at a time, in any order that respects dependencies; steps of two objects are not interleaved, since each writes its own maps and records only.
- TypeStreams: an object's PCH prefix ends right before the record that the PCH object leaves out, as the format has it.
- Objects that use a type server own no records and are left out; so are errors in looking up PCH objects and type servers, and merging without ghashes.
- TypeMerger.Merger.Remap: does not model that a type server's type source is given the item map as well after its records have been merged, because only symbol records read it there.
- GHashInsert.ConcurrentTable.Move: does not model weak memory; every load and compare-and-swap is one atomic step.
- The cap of the table size at what an index can express is a precondition on the table size.
- Ghash computation is not part of the model; a ghash is taken to be a collision-free function of a record and the ghashes it refers to where a property needs it.
- Icf.ICF.ForEachShard: the shards take turns class by class; the memory accesses of two shards inside the work on one class are not interleaved.
- Which sections are eligible for folding is an input, and so are content hashes; sections of merged string chunks count as not eligible; relocations to symbols that are missing are excluded.
- IcfSections: takes every relocation target, considered child and thunk to be in the list of chunks or in a merged string chunk; any other section would keep the number 0 in both slots.
- Grouping imports by DLL and their order inside a DLL are inputs; names, hints and strings are laid out by code that is not part of the model, and table entries are slots that name what they ask for.
- Delay-loaded imports and exports are left out.
- Cluster density is a function of weight and size that the model does not interpret, so floating-point rounding has no influence on what is proved; printing the symbol order is left out.
- CallGraphRun.Build: takes call weights below 2^64 and section sizes below 2^32.
- MarkLive.Marker.Mark: takes exit thunks to be acyclic, because marking recurses along them.
- What a relocation writes is an uninterpreted function of the relocation and the bytes it covers; sorting relocations first is left out.
- Subsections.WriteAll: takes relocations that stay inside the section and inside one piece, as the code's own comment does.
- DynamicRelocs.DynamicRelocsChunk.WriteTo: takes a buffer that holds zeros, as the output file does, because padding bytes are not written.
- Instructions: ARM64 words are numbers with their fields taken by division; the errors for instructions of another kind are left out.
- Library sorts and the stable partition are functions with the order they promise; where elements cannot compare equal, there is nothing to say of stability.
- Assigning addresses, writing files, drivers, option parsing, and the lock around a driver run are left out.
