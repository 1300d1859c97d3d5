# Verified model of the linker's meaning-bearing passes

The linker reads Mach-O and ELF objects and decides what survives into the image, what is merged,
which definition of a name wins and where bytes land. This project models the passes that make those
decisions and proves that they keep what they promise. Each module follows one part of the program:

| module | part of the program |
|---|---|
| `Icf`, `IcfOffsets` | identical code folding, and what it does to offsets inside a target (`src/icf.rs`) |
| `EhFrame` | `.eh_frame` records: parsing, CIE decoding, compaction (`src/elf.rs`) |
| `GcSections`, `GcApply` | ELF section garbage collection, analysis and application (`src/elf.rs`) |
| `Archives` | ordered archive and group selection for a static link (`src/elf.rs`) |
| `Resolve`, `HashTable` | global symbol resolution and the SysV hash table (`src/elf.rs`) |
| `DeadStrip`, `AtomIndex` | Mach-O dead stripping, its explanations and its atom lookup (`src/why_live.rs`) |
| `Atomize` | splitting sections into atoms (`src/atom.rs`) |
| `MachLayout`, `MachBuild`, `MachDetermined` | Mach-O layout: where things stand, the program that puts them there, and that there is one way to do so (`src/layout.rs`) |
| `ElfLayout`, `ElfPlacement`, `ElfFields`, `ElfLink` | static ELF merge, placement, relocated fields, and the three together (`src/elf.rs`) |
| `IcfMeaning`, `EhWriting`, `GcMeaning`, `ArchiveMeaning`, `ResolveMeaning`, `ElfMeaning`, `MachMeaning` | what the passes above mean, in terms of their inputs alone |
| `StringTable`, `Glob`, `Leb`, `Loh` | suffix-sharing string table, visibility patterns, LEB128, optimization hints |
| `Elf`, `Bytes`, `Arith`, `Wrappers` | shared datatypes, byte searches, rounding arithmetic, `Option` and `Result` |

Loops of the source are loops here, proved against specification functions or predicates; objects that
the source updates in place (`GcSections.Analysis`, `Archives.Selection`, `MachBuild.Layout`, the bytes in
`ElfFields.Apply`) are updated in place. Error texts are not modelled, only when an error is returned.

`dafny verify dfyconfig.toml` checks everything.

## How the main results fit together

* **Folding.** `Icf.FoldSafe` (the program) computes `Settle(Fold(..))`; `Icf.FoldPreservesMeaning` and
  `Icf.FoldStructure` are about that value. The step that makes iteration sound is `Icf.SignatureExtend`:
  a signature computed in an early round, pushed through the later redirects, is the signature the later
  round would compute, so equalities proved early survive (`Icf.MeaningExtend`).
* **Garbage collection.** `GcSections.AnalyzeGc` returns the least marking closed under seven rules;
  `EhFrame.PruneRoundTrip` says the compacted unwind section parses to exactly the kept records;
  `GcApply.GcIsSafe` and `GcApply.GcKeepsResolution` use both to show that no surviving relocation changes
  its meaning.
* **Selection.** `Archives.Selection.RescanGroup` leaves every archive of the group, at any depth, with
  nothing to pull; `Archives.Select` accounts for every selected object by a source used once, in a pass
  that began when its name was demanded, and computes the function `RunRange` of the inputs.
* **Liveness.** `DeadStrip.Build` finds the least closed set level by level, so `DeadStrip.Explain` prints a
  shortest path from a root (`DeadStrip.PathAtLeast`).
* **Layout.** `MachBuild.Build` and `ElfLink.Link` compose the passes of each format, so that alignment,
  disjointness, congruence and relocated values are statements about one run from its inputs, which determine it
  (`ElfLink.PlanDetermined`, `MachDetermined.BuildDetermined`). Two things the
  code does not do for every input are stated exactly: sections of a segment called `__PAGEZERO` are never
  placed (`MachLayout.SectionsDisjoint`, `MachLayout.PageZeroOverlaps`), and a NOBITS section that sorts before
  contents shifts their addresses only (`ElfPlacement.CongruentForAllSizes`).
* **Meaning.** The modules called `..Meaning`, and `EhWriting`, restate what the passes decide without the passes'
  own tests, keys and tables: which atoms become one (`IcfMeaning.FoldsExactly`), which sections parse
  (`EhWriting.ParseExactly`), what is live and why (`GcMeaning.ReferenceKept`, `GcMeaning.LiveForAReason`), what
  is pulled and why (`ArchiveMeaning.PulledForAReason`), who wins a name (`ResolveMeaning.CoalesceMeans`), and
  where things stand (`ElfMeaning.PlacementMeans`, `MachMeaning.SegmentMeans`).

## Model

| member | source | states |
|---|---|---|
| `Icf.FoldPreservesMeaning` | src/icf.rs:107-191 | for every initially kept atom the final canonical atom is kept and has the same output section, kind, size, alignment, flags up to ADDRESS_TAKEN and bytes, and relocation by relocation the same shape with targets of the same final canonical atom; every symbol ends at the canonical atom of the atom it started from |
| `Icf.FoldStructure` | src/icf.rs:120-183 | kept atoms and redirect sources partition the initial atoms, redirects only go to atoms earlier in fold order, only atoms that had a key when the pass began are redirected, and only to such atoms, and no two different kept atoms share a final key |
| `Icf.FoldSafe` | src/icf.rs:89-191 | the whole pass returns an error exactly when an initially kept foldable atom has no output section, and otherwise exactly the folded state with symbols settled on canonical atoms, whatever the bucket order |
| `Icf.FoldLoop` | src/icf.rs:120-185 | the fixpoint loop ends and computes the fold of the initial state |
| `Icf.FoldRound` | src/icf.rs:158-178 | one round over the buckets, in any order, removes exactly the losers of every key and says whether there were any |
| `Icf.FoldBucket` | src/icf.rs:159-177 | one bucket redirects every member but the first in fold order |
| `Icf.RebindFolded` | src/icf.rs:292-307 | exactly the loser's own defined symbols move to the winner |
| `Icf.CanonicalAtom` | src/icf.rs:510-519 | the chain walk ends, outside the redirects, at the canonical atom |
| `Icf.CanonExtend` | src/icf.rs:510-519 | after later redirects, canonicalising an earlier canonical atom is canonicalising the atom itself |
| `Icf.NormalizeExtend` | src/icf.rs:476-508 | a normalized referent under more redirects is the earlier one pushed through them |
| `Icf.SignatureExtend` | src/icf.rs:431-474 | the same for an atom's whole relocation signature |
| `Icf.KeyMeaning` | src/icf.rs:194-216 | equal fold keys mean equal meaning, read off the initial symbol table |
| `Icf.MeaningExtend` | src/icf.rs:120-183 | sameness of meaning established in one round survives the redirects of later rounds |
| `Icf.LoserEdge` | src/icf.rs:163-177 | a redirect goes to an atom of the same key that is strictly earlier in fold order and is itself not redirected in that round |
| `Icf.UnfoldableStays` | src/icf.rs:268-290 | an atom that is not foldable (NO_DEAD_STRIP, address taken, publicly named, or of another kind of section) is kept and is its own canonical atom |
| `Icf.AddressTakenStaysDistinct` | src/icf.rs:363-418 | two different atoms whose addresses are taken by relocations stay two different kept atoms |
| `IcfMeaning.FoldsExactly` | src/icf.rs:107-216 | two initially kept atoms end with one canonical atom if and only if they are the same atom, or both are free (of a foldable kind of section, neither NO_DEAD_STRIP nor address taken, without a public name, all operands meant, output section known) and alike in output section, kind, size, alignment, bytes, flags up to ADDRESS_TAKEN and, relocation by relocation, in what the operands finally stand for |
| `IcfMeaning.FixedStays` | src/icf.rs:268-290 | an atom of another kind of section, with NO_DEAD_STRIP or ADDRESS_TAKEN set, or with an owner or alternate entry that is defined and not private, stays, is its own canonical atom, and no other atom becomes it |
| `IcfMeaning.FixedExactly` | src/icf.rs:268-290 | the foldability test is exactly the absence of these reasons |
| `IcfMeaning.SameThingExactly` | src/icf.rs:476-508 | normalized operands are equal exactly when the operands are the same section, the same local label, symbols of one absolute value, of atoms with one canonical atom, or of one unbound name |
| `IcfMeaning.SignatureExactly` | src/icf.rs:431-474 | signatures are equal exactly when the relocations agree one by one in place, shape, addend and operands |
| `IcfMeaning.ContainsExactly` | src/icf.rs:420-429 | below 2^32, a relocation belongs to an atom exactly when every byte it writes does |
| `IcfMeaning.FirstStays` | src/icf.rs:251-266 | the atom that stays is the first of those that become it, by load order, place in the archive, offset and number |
| `IcfMeaning.MarkedExactly` | src/icf.rs:363-418 | marking fixes exactly the atoms that a relocation other than a branch reaches, by its operand or its subtrahend, and changes nothing else |
| `IcfMeaning.UnplacedExactly` | src/icf.rs:125-151 | the pass fails on an atom that only lacks a known output section to be free |
| `IcfOffsets.FoldPreservesSpots` | src/icf.rs:476-508 | an atom with a signature and its final canonical atom refer to the same bytes, target atom and offset in it, exactly when the symbol values that normalization drops agree, relocation by relocation |
| `IcfOffsets.SameSpotsExactly` | src/icf.rs:476-508 | the same for any two atoms of one meaning |
| `IcfOffsets.StartsPreserveSpots` | src/icf.rs:498-501 | when every resolved name stands at the start of its atom, folding preserves target atom and offset for every kept atom |
| `IcfOffsets.SameKeyFolds` | src/icf.rs:158-178 | atoms of one key in the first round end with one canonical atom |
| `IcfOffsets.FirstRoundSpots` | src/icf.rs:120-178 | atoms of one first-round key become one, and whether they refer to the same bytes is told beforehand by the symbol values of the initial tables |
| `IcfOffsets.OffsetsFold` | src/icf.rs:498-501 | on a table with its address-taken atom marked, two pointers to offsets 0 and 4 of that atom get one canonical atom: the condition on dropped values is needed |
| `IcfOffsets.FoldTwoPointers` | src/icf.rs:89-191 | the whole pass, marking included, run on those two pointers succeeds and makes them one |
| `EhFrame.ParseEhFrame` | src/elf.rs:1691-1825 | the parse loop computes the recursive record grammar of section 10.6.1 of the LSB Core specification, including its error cases |
| `EhFrame.CieIsEarlier` | src/elf.rs:1744-1781 | in a parsed section an FDE names an earlier record that is a CIE and has an initial location |
| `EhWriting.ParseExactly` | src/elf.rs:1691-1825 | a section parses to these records if and only if they tile it from 0, only zeros follow, each says so itself (a length, then 0 and a CIE body that declares its encoding, or the distance back to an earlier CIE of encoding pcrel and sdata4 and room for an initial location) and every relocation writes inside one record body |
| `EhWriting.SectionReads` | src/elf.rs:1691-1825 | a section written from CIEs and FDEs naming them, with zeros after it, parses to exactly those records unless a relocation writes outside the bodies |
| `EhWriting.AugmentationExactly` | src/elf.rs:1101-1147 | the letters after `z` and the data are read exactly when they are a list of fields, a byte for R and L, an encoding and a pointer of its format for P, nothing for S, and the result is the byte of the last R, or 0 |
| `EhWriting.CieReads` | src/elf.rs:1050-1148 | a CIE written from version, letters, factors, register and fields declares the encoding of its last R |
| `EhWriting.PlainCieReads` | src/elf.rs:1090-1092 | a CIE whose augmentation does not begin with `z` declares the absolute encoding |
| `EhWriting.CieExactly` | src/elf.rs:1050-1148 | the bodies from which an encoding is read are exactly those of a version, a string, two factors, a register and, after `z`, fields of the given length |
| `EhFrame.PruneRoundTrip` | src/elf.rs:2141-2195 | for every parsed section and keep set closed under FDE-to-CIE, parsing the compacted section gives exactly the kept records in order, each FDE naming the image of its CIE |
| `EhFrame.PrunedBytes` | src/elf.rs:2144-2169 | every kept record keeps its bytes except the CIE pointer of an FDE, and that pointer holds the distance to the moved CIE |
| `EhFrame.MovedExactly` | src/elf.rs:2171-2191 | the relocations left are those of kept records, each once and in order, moved by their record's displacement |
| `EhFrame.PruneSucceeds` | src/elf.rs:2141-2195 | on a parsed section with a closed keep set none of the compactor's error conditions can arise |
| `EhFrame.PruneEhFrame` | src/elf.rs:2141-2195 | the two-pass compactor fails exactly when a kept FDE lost its CIE, a pointer outgrows 32 bits or a relocation lies outside every record, and otherwise returns the compacted section |
| `EhFrame.OffsetShrinks` | src/elf.rs:2161-2168 | compaction never moves two records further apart, so rewritten pointers still fit |
| `GcSections.AnalyzeGc` | src/elf.rs:1933-2139 | it succeeds exactly on validated, resolvable objects whose frames parse and whose FDEs have targets, and then returns the least marking closed under the root, named-root, relocation, FDE-target, FDE-keeps-CIE, forced-section and kept-record rules |
| `GcSections.Analysis.Run` | src/elf.rs:1965-2139 | the nested fixpoint terminates, fails exactly on an FDE without a target, and otherwise ends in the least closed marking |
| `GcSections.Analysis.Drain` | src/elf.rs:2002-2017 | the inner worklist empties with every live section's relocations followed, keeping no new record |
| `GcSections.Analysis.ScanFrames` | src/elf.rs:2019-2107 | a look at all unkept records that finds nothing leaves the marking unchanged and closed under the FDE rules |
| `GcSections.Analysis.KeepRecord` | src/elf.rs:2091-2104 | keeping a wanted record keeps its CIE too and reports exactly what is newly kept |
| `GcSections.Analysis.MarkNames` | src/elf.rs:1978-1999 | the sections of the entry and exported names are live |
| `GcSections.FollowNeeded` | src/elf.rs:1892-1931 | what following one symbol marks belongs to every closed marking that forces that symbol |
| `GcSections.KeepNeeded` | src/elf.rs:2087-2104 | keeping a wanted record and its CIE stays inside every closed marking |
| `GcSections.LinkDetermined` | src/elf.rs:1938-1951 | objects and root names determine the resolution and the parsed frames the analysis works on |
| `GcMeaning.StandsForExactly` | src/elf.rs:1864-1890 | an undefined symbol, and a non-local COMMON one, stands for what its name resolves to, every other symbol for itself |
| `GcMeaning.ReferenceKept` | src/elf.rs:2001-2016 | the section that defines what a relocation of a live ordinary section names, in this object or through the resolved names in another, is live |
| `GcMeaning.RecordReferenceKept` | src/elf.rs:2112-2135 | so is the section that defines what a relocation of a kept unwind record names |
| `GcMeaning.FdeKept` | src/elf.rs:2019-2108 | the FDE of live code is kept with its section and its CIE |
| `GcMeaning.DescribesExactly` | src/elf.rs:2037-2090 | an FDE is about the executable section that the one PC32 relocation at its initial location refers to |
| `GcMeaning.RootKept` | src/elf.rs:1967-1999 | sections kept whatever the references, and sections defining a root name, are live |
| `GcMeaning.AlwaysKeptExactly` | src/elf.rs:1827-1839 | those are the retained ones, the init, fini and preinit arrays, and `.init`, `.fini`, `.ctors`, `.dtors` and the last two with a suffix |
| `GcMeaning.LiveForAReason` | src/elf.rs:1933-2139 | nothing else is live: every live section is such a root, is referred to by another live section or a kept record, or holds a kept record |
| `GcMeaning.ForcedForAReason` | src/elf.rs:1841-1931 | an unwind section is kept whole only if it is a root or is referred to |
| `GcMeaning.RecordForAReason` | src/elf.rs:2019-2108 | a record is kept only if its section is kept whole, its code is live, or a kept FDE names it |
| `GcMeaning.ReferencedExactly` | src/elf.rs:1892-1931 | the symbols recorded as referenced are exactly those of relocations of what is kept |
| `GcMeaning.UndefinedExactly` | src/elf.rs:1908-1931 | the names recorded as undefined are exactly the strong undefined ones among them that nothing defines and the linker does not provide |
| `GcMeaning.WellFormedExactly` | src/elf.rs:1605-1680 | validation accepts exactly objects whose symbols name existing sections and whose relocations name existing symbols and write inside their section |
| `GcApply.ApplyGc` | src/elf.rs:2197-2225 | applying a closed marking never hits the compactor's errors and gives the survivors with remapped symbol sections |
| `GcApply.GcKeepsResolution` | src/elf.rs:1511-1578 | a map is the resolution of the objects before collection exactly when it is their resolution afterwards |
| `GcApply.GcIsSafe` | src/elf.rs:2197-2225 | every section after collection is a live one at its renumbered place, and each of its relocations came from that section with the same symbol, type and addend and stands for the same definition, whose section, if any, survived at its new index |
| `GcMeaning.GcKeepsReferences` | src/elf.rs:2197-2225 | a relocation after GC came from a live section; its symbol stands for the same definitions as before, read off names and symbol tables, and refers to the same sections as before, all live, at their new places, and to no others |
| `GcApply.NewIndexOrder` | src/elf.rs:2206-2214 | renumbering keeps the order of surviving sections and never collides |
| `GcApply.SurvivorAt` | src/elf.rs:2199-2214 | a live section is found, compacted, at its new index |
| `GcApply.FollowedKeepsTarget` | src/elf.rs:1892-1931 | a followed reference has the same target before and after |
| `Archives.Select` | src/elf.rs:2418-2422 | on success the group markers balance, every command-line object is selected once and in command-line order, no archive member is selected twice, each selected member was demanded when its pass began, with only pulls of that pass in between, objects gained equal what the inputs lost, and each archive or whole group in its turn gave only its own members and ended with no unpulled member, at any depth, for a name then demanded; on failure a marker is unmatched or an archive is broken; result and error are the function `RunRange` of the inputs |
| `Archives.StopAdvances` | src/elf.rs:2334-2380 | every turn of a top-level item gained from that item only, was quiet when it ended, and the rest of the selection only adds to what it left |
| `Archives.Selection.ProcessRange` | src/elf.rs:2334-2380 | terminates, computes `RunRange`, appends objects of the range only, reports truthfully whether it added one, and when it did not, leaves every archive and object of the range, at any depth, with nothing to give |
| `Archives.Selection.RescanGroup` | src/elf.rs:2345-2357 | when a group ends no archive inside it at any depth has an unpulled indexed member for a name still demanded |
| `Archives.Selection.ScanArchive` | src/elf.rs:2265-2315 | the archive is quiet when its scan ends, and every pull is from this archive, in a pass begun during this scan, for a name demanded at the start of that pass |
| `Archives.Selection.PullOne` | src/elf.rs:2286-2308 | one name pulls at most one member, never one pulled before, and is served afterwards |
| `Archives.Selection.TakeObject` | src/elf.rs:2362-2367 | a command-line object is taken once |
| `Archives.FindGroupEnd` | src/elf.rs:2317-2332 | it finds the end marker that balances the group, or none exists in the range |
| `Archives.PullKeeps` | src/elf.rs:2286-2308 | pulling in a pass that goes on keeps the one-to-one account between selected objects and their sources, and keeps passes uninterrupted |
| `Archives.PullSpends` | src/elf.rs:2290-2306 | a pull uses up exactly one unpulled indexed offset |
| `Archives.ArmapOffset` | src/elf.rs:1262-1280 | the lookup is an exact entry, else the first default version, else the first other version |
| `Archives.LookupExact` | src/elf.rs:1262-1280 | a name has an offset exactly when the index holds it plain or versioned |
| `Archives.UndefinedDemand` | src/elf.rs:1286-1330 | the demand is the unsatisfied references in first-seen order, each once |
| `Archives.AskedExact` | src/elf.rs:1286-1330 | a name is in the demand exactly when some object has an unsatisfied strong reference to it |
| `Archives.DefinedNames` | src/elf.rs:1240-1250 | a versioned definition also answers for its base name |
| `ArchiveMeaning.WantingExactly` | src/elf.rs:1286-1330 | a name is demanded exactly when it is non-empty, not provided by the linker, named by a strong undefined symbol of some selected object, and defined by none, plainly or as a version |
| `ArchiveMeaning.DemandMeans` | src/elf.rs:1286-1320 | whatever counts as defined, a name is demanded exactly when it is non-empty, not the linker's, and a strong reference to it is not satisfied, a reference of default visibility by what is defined and any other by the objects' own definitions |
| `ArchiveMeaning.WeakAsksNothing` | src/elf.rs:1305-1309 | objects whose undefined symbols are all weak demand nothing |
| `ArchiveMeaning.WeakPullsNothing` | src/elf.rs:2265-2315 | if no command-line object has a strong undefined symbol and no entry is asked for, no archive member is selected |
| `ArchiveMeaning.PulledForAReason` | src/elf.rs:2278-2309 | every selected member is the best answer of its archive for a name that was wanted, or was the undefined entry symbol, when its pass began |
| `ArchiveMeaning.QuietMeans` | src/elf.rs:2278-2314 | a quiet archive has given its best answer for everything wanted |
| `ArchiveMeaning.LookupMeans` | src/elf.rs:1262-1280 | the best answer is the first plain entry, else the first `name@@..`, else the first `name@..` |
| `ArchiveMeaning.DemandInOrder` | src/elf.rs:1299-1320 | names are demanded in the order of their first references |
| `ArchiveMeaning.PassListIs` | src/elf.rs:2279-2284 | a pass works through them and then the entry symbol |
| `ArchiveMeaning.ProvidedExactly` | src/elf.rs:1240-1250 | the defined names are those of global or weak symbols in a section, and their bases |
| `Resolve.ResolveGlobals` | src/elf.rs:1511-1578 | it fails exactly when a name clashes and otherwise returns the resolution described by the closed form and the version rule |
| `Resolve.CoalesceClosedForm` | src/elf.rs:1511-1557 | the fold fails exactly when some name whose first definition has an ordinary binding has two strong definitions; otherwise each name's winner is strong over COMMON over weak, COMMON by greatest size then alignment, ties to the earliest |
| `Resolve.WinsUnique` | src/elf.rs:1418-1425 | the winner of a name is unique |
| `Resolve.OddHidesDuplicates` | src/elf.rs:1540-1552 | a first definition with a binding that is neither global nor weak hides two strong ones: the closed form needs its side condition |
| `Resolve.AliasVersions` | src/elf.rs:1559-1575 | a versioned base goes to an explicit definition, else the earliest default version, else the earliest other version |
| `Resolve.AliasedUnique` | src/elf.rs:1559-1575 | the aliased map does not depend on map iteration order |
| `Resolve.ResolveSame` | src/elf.rs:1511-1578 | resolution depends on defining symbols only |
| `ResolveMeaning.CoalesceMeans` | src/elf.rs:1422-1557 | coalescing fails exactly on two strong definitions of a name first defined with a usual binding; otherwise a strong definition wins, else the COMMON symbol of largest size, then alignment, then earliest, else the first weak definition; a name first defined with an unusual binding keeps that definition |
| `ResolveMeaning.ChosenUnique` | src/elf.rs:1422-1557 | these rules choose one definition |
| `ResolveMeaning.ResolveMeans` | src/elf.rs:1511-1578 | a defined name resolves to its chosen definition, any other name to the version that answers for it, and exists only if there is one |
| `ResolveMeaning.AnswersExactly` | src/elf.rs:1559-1575 | the version that answers is the first `name@@..` in link order, else the first `name@..` |
| `ResolveMeaning.ByLinkerExactly` | src/elf.rs:129-143 | the names the linker provides are the bounds of the start and exit arrays and of IRELATIVE relocations, the headers, the GOT, and the ends of data and bss |
| `HashTable.ElfHash` | src/elf.rs:3406-3417 | the hash stays below 2^28 after every byte |
| `HashTable.HashStepMeans` | src/elf.rs:3406-3417 | a step takes sixteen times the hash plus the byte, in 32 bits, and mixes it |
| `HashTable.MixFolds` | src/elf.rs:3410-3413 | mixing exclusive-ors the top four bits into bits 4 to 7 (gABI, chapter 5, Hash Table) |
| `HashTable.MixKeeps` | src/elf.rs:3410-3414 | and clears the top four bits, leaving all others, and everything when they are clear |
| `HashTable.BuildHash` | src/elf.rs:4263-4273 | bucket heads and chain links point at the latest earlier symbol of the bucket |
| `HashTable.WalkVisits` | src/elf.rs:4263-4273 | the walk from a bucket head strictly decreases and visits exactly that bucket's symbols |
| `HashTable.ChainsDescend` | src/elf.rs:4263-4273 | every chain link goes to a smaller index |
| `HashTable.Lookup` | src/elf.rs:4263-4280 | looking a name up through buckets and chains finds it exactly when a linear scan does |
| `DeadStrip.Build` | src/why_live.rs:54-113 | the worklist ends with the least set that holds the roots and is closed under forward, parent and live-support edges; every recorded cause is a root entry or a real edge from an atom discovered earlier and one level nearer to the roots, and no edge skips a level |
| `DeadStrip.Expand` | src/why_live.rs:80-105 | after an atom's turn everything its three kinds of edge lead to is live |
| `DeadStrip.FoundNeeded` | src/why_live.rs:72-105 | every discovered atom belongs to every closed set |
| `DeadStrip.CauseIsEarlier` | src/why_live.rs:180-267 | following a cause goes strictly back in discovery order |
| `DeadStrip.Explain` | src/why_live.rs:180-267 | for a live atom the explanation is a path of real edges from a root, without repetition and no longer than the live set, and no path from a root to the atom is shorter; the missing-chain branch is never taken |
| `DeadStrip.PathAtLeast` | src/why_live.rs:72-105 | because the worklist is first in, first out, a path of edges from a root to an atom has at least as many steps as the atom's chain of causes |
| `DeadStrip.ParentEdges` | src/why_live.rs:729-740 | the table holds exactly the parent edges |
| `DeadStrip.LiveSupportEdges` | src/why_live.rs:742-767 | the table holds exactly the edges from ordinary targets to the live-support atoms that refer to them |
| `AtomIndex.FindInSection` | src/why_live.rs:845-894 | the binary searches and the scan fallback both answer: first atom that contains the offset, else first that ends there, also with empty atoms, gaps and saturated ends |
| `AtomIndex.AnswersUnique` | src/why_live.rs:853-866 | that answer is unique, so the two paths agree |
| `AtomIndex.New` | src/why_live.rs:819-839 | every section's list holds its atoms in table order, and the flag is set exactly when neighbours are ordered and do not overlap |
| `AtomIndex.Find` | src/why_live.rs:841-894 | the indexed lookup is the linear rule over the atoms the table holds for that section |
| `AtomIndex.FindMeans` | src/why_live.rs:793-894 | the answer is the first atom of the table, in that input and section, whose bytes cover the offset, else the first that ends there, else none |
| `Atomize.AtomizeSplit` | src/atom.rs:570-715 | it panics exactly when an ordinary symbol lies past the section's end; otherwise the atoms tile the section, start at 0 and at ordinary symbols, local ones included, and nowhere else, ordinary global symbols own the atoms starting at their offsets, and the entries recorded are exactly the symbols to be entered, at their own offsets and inside their atoms |
| `Atomize.CutDetermined` | src/atom.rs:570-715 | section and symbols determine the whole cut: atoms with their starts, sizes, bytes, alignments and entries, and the tables of owners and entries |
| `Atomize.EntriesDetermined` | src/atom.rs:660-711 | the places of the entries and the starts of the atoms say which entry belongs to which atom |
| `Atomize.SymbolsPlaced` | src/atom.rs:570-715 | every global alternate entry below the section size has exactly one entry and every ordinary global symbol exactly one owner record, at its own offset, and the atoms' bytes concatenate to the section |
| `Atomize.TiledAdjacent` | src/atom.rs:568-715 | atoms are adjacent slices from 0 to the section size with the section's bytes and the alignment of their offset |
| `Atomize.EntryOnce` | src/atom.rs:663-711 | an entered symbol has exactly one entry and any other symbol none |
| `Atomize.FoldsExactly` | src/atom.rs:660-685 | the entry loop's tests decide exactly which symbols are entered |
| `Atomize.FindNextBoundary` | src/atom.rs:1337-1353 | the next boundary is the first symbol at the next offset that has an ordinary one |
| `Atomize.CutAtom` | src/atom.rs:642-714 | one turn of the loop extends the tiling to the next boundary and accounts for the symbols passed |
| `Atomize.AtomAlignmentExact` | src/atom.rs:1292-1301 | an atom's alignment is the greatest, up to 255, that its section's alignment guarantees at its offset |
| `MachLayout.AddressFileCongruence` | src/layout.rs:425-549 | with section alignment at most a page and zerofill last, every file-backed section, in whatever segment, is as far into its segment in memory as in the file |
| `MachLayout.SortPutsZerofillLast` | src/layout.rs:747-758 | sorting by the section comparison puts zerofill sections last in their segment |
| `MachLayout.SectionsDisjoint` | src/layout.rs:464-516 | two non-empty sections of one segment are disjoint after layout, in memory and, if file backed, in the file, exactly when the segment is not called `__PAGEZERO` |
| `MachLayout.AllSectionsDisjoint` | src/layout.rs:464-548 | any two sections outside `__PAGEZERO`, in one segment or two, are disjoint in memory and in the file |
| `MachLayout.PageZeroOverlaps` | src/layout.rs:466-470 | two four-byte sections in `__PAGEZERO` of an executable both stay at address 0 and file offset 0 |
| `MachLayout.SectionInside` | src/layout.rs:496-540 | a section is aligned, in `__TEXT` past the header; it lies in its segment's memory exactly unless it is in `__PAGEZERO` and larger than page zero; a non-empty file-backed one lies in its segment's file range exactly when the segment is neither `__PAGEZERO` nor `__LINKEDIT`, whose file sizes are zero |
| `MachLayout.SegmentsDisjoint` | src/layout.rs:464-548 | segments start on pages and do not overlap, in memory or in the file: page zero first, wherever it is listed, then the others as listed |
| `MachLayout.LaidOutUnique` | src/layout.rs:425-549 | the layout is determined by what layout does not write |
| `MachBuild.Layout.AssignAddresses` | src/layout.rs:425-549 | the cursor loops put every section and segment where the specification says, leave sections of `__PAGEZERO` as they were, and change nothing else |
| `MachBuild.Layout.Relayout` | src/layout.rs:399-401 | laying out a laid out image again changes nothing |
| `MachLayout.PlaceAtoms` | src/layout.rs:333-354 | atoms in a section are aligned, disjoint and inside it, each at the first aligned offset after the one before, and the synthetic data follows them |
| `MachLayout.AtomAddressAligned` | src/layout.rs:414-423 | an atom no more aligned than its section gets an aligned address |
| `MachBuild.BuildSegmentNames` | src/layout.rs:676-734 | the list is the needed standard segments, the sections' own ones in name order, and `__LINKEDIT`; it covers every section, `__TEXT` comes first after a page zero; a page zero, if there is one, is first exactly unless a dylib has a section in a segment called `__PAGEZERO` |
| `MachBuild.SortSections` | src/layout.rs:303 | the sort returns the same sections, ordered by the section comparison, which is total and transitive, with ties in input order |
| `MachBuild.Build` | src/layout.rs:303-362 | for every list of sections: none is lost, they are sorted with ties in input order, every section's segment is in the list, sections and atoms are aligned, sections outside `__PAGEZERO` are pairwise disjoint in memory and in the file, and with section alignment at most a page address and file offset are congruent in every segment |
| `MachDetermined.BuildDetermined` | src/layout.rs:303-362 | the sections as they are made and the header size determine order, atoms' offsets, sizes, segments, addresses and file offsets |
| `MachDetermined.StableSortUnique` | src/layout.rs:303 | two sorted lists with the same ties in the same order are the same list |
| `MachMeaning.ComparesSo` | src/layout.rs:736-791 | sections are ordered by segment (page zero of an executable, text, constant data, data, the linker's tables, others by name), contents before zerofill, then the known sections of the standard segments in their order, then by name |
| `MachMeaning.NamesCompareSo` | src/layout.rs:747-758 | names compare by their first different character, a prefix coming first |
| `MachMeaning.SortedMeans` | src/layout.rs:303 | in the layout no section comes before an earlier one in that order |
| `MachMeaning.SegmentListMeans` | src/layout.rs:676-734 | the segments are text, the linker's tables at the end, page zero in executables, and those that sections name |
| `MachMeaning.SectionMeans` | src/layout.rs:464-516 | every section stands at the first aligned address, and with contents at the first aligned file offset, after the one before it, the first behind the header in `__TEXT` |
| `MachMeaning.SegmentMeans` | src/layout.rs:440-548 | page zero covers the first 4 GiB of an executable, `__TEXT` starts behind it, every other segment on the first page after the one before it, and sizes are the contents rounded up to pages, the linker's tables apart |
| `MachMeaning.FilledMeans` | src/layout.rs:333-354 | every atom stands at the first aligned offset after the one before it, and the synthetic data follow, aligned to 8 in `__DATA,__data` and like the section elsewhere |
| `ElfLayout.Merge` | src/elf.rs:2453-2508 | merging fails exactly on incompatible parts; otherwise there is one output section per key, opened in first-seen order, and every part's bytes are in it at the next multiple of its alignment, apart from the other parts, with zeros between them |
| `ElfLayout.MergeDetermined` | src/elf.rs:2453-2508 | the parts determine the output sections, down to their bytes and alignments, and every part's place |
| `ElfLayout.Validate` | src/elf.rs:864-887 | rejects mergeable sections without entry size and frame sections whose flags differ from an earlier one |
| `ElfLayout.PartAddressAligned` | src/elf.rs:2495-2506 | with power-of-two alignments a part lands on an address aligned for it |
| `ElfPlacement.SortByRank` | src/elf.rs:2832-2835 | the order lists every output section once, by rank and then by creation |
| `ElfPlacement.PlaceOutputs` | src/elf.rs:2842-2872 | output sections are aligned and disjoint in memory and in the file, past the file and program headers, the writable ones start on a page of their own, each stands where the loop's function puts it; and contents at file offset f are at BASE_VADDR + f (gABI chapter 5, Program Loading) exactly when every contents alignment divides the base and, where NOBITS precedes contents, the gap it leaves fits the padding before them |
| `ElfPlacement.PlacementDetermined` | src/elf.rs:2832-2872 | the merged sections determine their order, addresses and file offsets |
| `ElfPlacement.CongruentAtSizes` | src/elf.rs:2852-2872 | that equivalence for the loop as a function, page break included, wherever NOBITS sections are |
| `ElfPlacement.CongruentExactly` | src/elf.rs:2852-2872 | if NOBITS sections sort after contents, the layout is congruent exactly when contents alignments divide the base |
| `ElfPlacement.PlainCongruentExactly` | src/elf.rs:947-957 | it applies when NOBITS sections are writable and not executable |
| `ElfPlacement.CongruentForAllSizes` | src/elf.rs:2852-2872 | the layout is congruent for every choice of NOBITS sizes exactly when contents alignments divide the base and every NOBITS section sorts after every section with contents |
| `ElfPlacement.SpotShifted` | src/elf.rs:2864-2871 | enlarging a NOBITS section by a common multiple of page and alignments moves everything behind it by that much in memory and not at all in the file |
| `ElfPlacement.ExecutableNobitsShifts` | src/elf.rs:2852-2872 | on an executable NOBITS section and the text behind it the whole loop puts the text one byte too high: the condition on NOBITS is needed |
| `ElfPlacement.StaysInStep` | src/elf.rs:5412-5415 | rounding keeps address and file offset in step when the alignment divides the base |
| `ElfFields.Apply` | src/elf.rs:3095-3118 | applying a section's relocations succeeds exactly when every value is in range; each field of a disjoint set then holds its encoding, and nothing outside the fields changes; `ElfLink.Link` fills in S and P |
| `ElfFields.FieldReadsBack` | src/elf.rs:3097-3118 | an accepted 32, 32S or PC32 field reads back to S+A or S+A-P without truncation (section 4.4.1 of the x86-64 psABI), a 64-bit one modulo 2^64 |
| `ElfFields.EncodeShape` | src/elf.rs:227-239 | encoding succeeds exactly in the relocation's own range and has the field's width |
| `ElfLink.Link` | src/elf.rs:2444-3118 | merging, placing and relocating succeed exactly on well-formed relocations, compatible sections and values in range at the addresses of the merge and placement of those sections, which are aligned and disjoint; every input byte outside fields then stands at its place in the image, each field reads S+A or S+A-P with S and P the final addresses of target and field, and the exact congruence condition holds of the image |
| `ElfLink.PlanDetermined` | src/elf.rs:2444-2872 | the sections and the number of program headers determine that merge and placement, so success depends on the inputs alone |
| `ElfLink.RelocateAll` | src/elf.rs:3044-3118 | relocating all sections in order fails exactly on a value out of range, and one section's fields never disturb another's bytes or fields |
| `ElfMeaning.OrderMeans` | src/elf.rs:947-957 | output sections are ordered code, read-only data, data, bss, and by creation within a class |
| `ElfMeaning.MergeMeans` | src/elf.rs:2453-2508 | parts share an output section exactly when name, flags and entry size agree, and it has those |
| `ElfMeaning.PlacementMeans` | src/elf.rs:2842-2872 | every output section stands at the first multiple of its alignment after the one before it, in the file and in memory, the first behind the headers at 0x400000, and the first writable one from a new page on |
| `ElfMeaning.AddressMeans` | src/elf.rs:3044-3094 | S and P are the output section's address plus the place of the part plus the offset in it |
| `ElfMeaning.AcceptedMeans` | src/elf.rs:227-239 | a value is accepted exactly when some content of the field means it |
| `ElfMeaning.ValueMeans` | src/elf.rs:3095-3118 | the value is S + A, or what must be added to P to give it |
| `StringTable.Finish` | src/string_table.rs:161-186 | every inserted name reads back at its offset, and a name gets its own bytes exactly when it is non-empty and no proper suffix of another inserted name |
| `StringTable.LastRootSuffices` | src/string_table.rs:188-199 | looking only at the last root before the search point finds a suffix exactly when one exists |
| `StringTable.SuffixInterval` | src/string_table.rs:211-225 | everything between a name and its suffix in the order ends with that suffix |
| `StringTable.SuffixLater` | src/string_table.rs:211-225 | a proper suffix comes after the name in the order |
| `StringTable.ReverseSuffixOrder` | src/string_table.rs:211-225 | the two-cursor loop compares names from their ends |
| `StringTable.GetStored` | src/string_table.rs:70-96 | a NUL-free name reads back where it is stored |
| `StringTable.BuildWithNameOffsets` | src/string_table.rs:126-159 | offsets come back in input order and each reads back its name |
| `Glob.WildcardMatches` | src/symbol_visibility.rs:68-97 | remembering only the last star is enough: the loop ends and computes the recursive decision |
| `Glob.GlobMeaning` | src/symbol_visibility.rs:68-97 | the matcher has the declarative meaning of star and question mark for every pattern exactly on values without a star byte |
| `Glob.DecidesSound` | src/symbol_visibility.rs:68-97 | on every value the matcher accepts only what the pattern means |
| `Glob.StarFools` | src/symbol_visibility.rs:77-80 | every value with a star byte has a pattern that means it and is not accepted |
| `Glob.NeverEarlier` | src/symbol_visibility.rs:77-93 | restarting later never gets past an aligned stretch earlier, so older stars need not be revisited |
| `Glob.Hides` | src/symbol_visibility.rs:28-40 | a name is hidden exactly when it is outside a non-empty allow list or on the deny list |
| `Leb.UlebRoundTrip` | src/leb.rs:13-37 | decoding an encoded 64-bit word followed by anything gives the word and its length (section 7.6 of DWARF 5) |
| `Leb.SlebRoundTrip` | src/leb.rs:39-66 | the same for signed words |
| `Leb.WriteUleb` | src/leb.rs:68-79 | the writer appends exactly the encoding |
| `Leb.WriteSleb` | src/leb.rs:81-95 | the writer appends exactly the signed encoding |
| `Leb.ReadUleb` | src/leb.rs:13-37 | the reading loop computes the specification, errors included |
| `Leb.ReadSleb` | src/leb.rs:39-66 | the signed reading loop computes the specification, errors included |
| `Loh.LohRoundTrip` | src/loh.rs:62-106 | parsing a written stream followed by zero bytes gives back the entries exactly when the last entry is not blank |
| `Loh.ParseWritten` | src/loh.rs:62-106 | in general it gives back the entries without trailing blank ones |
| `Loh.ParseLoh` | src/loh.rs:62-94 | the parsing loop computes the stream grammar, and panics exactly when it meets an argument count whose room a vector cannot reserve before it meets an error |
| `Loh.WrittenOverflows` | src/loh.rs:62-106 | reading back a written stream panics exactly when an entry has more arguments than a vector can hold |
| `Loh.WriteLoh` | src/loh.rs:96-106 | the writer emits exactly the encoding |

## Left out

- Command line, printing, file publication, threaded input loading, and the Mach-O reader and writer: their results are inputs here.
- Archive containers: an archive is an ordered symbol index and what parsing the member at an offset gives; thin members and container errors are a flag and a missing member.
- Dynamic links (`gc_dynamic_sections`, dynamic groups, shared libraries, version tables) and the bytes of headers, PLT, GOT, `.dynamic` and `.eh_frame_hdr`: long straight-line emission.
- Folding: the atoms a local or section referent may touch come in as a table, because the two lookup paths of `IcfAtomIndex` differ on empty atoms at one offset; atoms are assumed bound, so that every owner and alternate entry of a kept atom is defined at that atom.
- `Icf.FoldPreservesMeaning`: compares targets by atom, as `normalize_referent` does; offsets inside a target atom are the subject of `IcfOffsets`.
- `Icf.AddressTakenStaysDistinct`: the set of atoms taken by a section or local referent is that table.
- Garbage collection and layout passes: `&mut` arguments of the source's free functions are values in and out here; aliasing between them is not modelled.
- `EhFrame.ParseEhFrame`: a CIE's augmentation is decoded on the record's own bytes, not on the whole section with bounds; error texts are not distinguished.
- `Archives.Select`: after an error the partly grown lists are not described, since the link stops there.
- `Archives.LookupExact`: `member_at_offset` is a map lookup.
- `DeadStrip.Build`: the roots and the forward edges are inputs; how relocations become forward edges is covered only by the lookup in `AtomIndex`.
- `AtomIndex.FindInSection`: the probe callback, which only counts comparisons, is dropped.
- `Atomize.AtomizeSplit`: only the symbol-split path; atom flags, literal, unwind and zerofill sections are not modelled (bytes before a zerofill section's first symbol get no atom).
- Mach-O layout: atoms are given per section in their final order; inserting extra sections and splitting sections after atoms are not modelled; 64-bit overflow of addresses is excluded by unbounded integers.
- `MachBuild.BuildSegmentNames`: protections and flags of segments are not modelled.
- `MachBuild.Build`: sections come as they are made, with their atoms; grouping atoms into sections and adding synthetic sections happen before.
- `ElfLayout.Merge`: sections of the init and fini arrays and TLS sections take no part, nor does COMMON allocation; the alignment of `.tbss` contributions is not claimed, because their offset adds an unaligned base to an aligned cursor.
- `ElfFields.Apply`: GOT-relative and TLS relocations and their relaxations are not modelled; overflow of the 64-bit sums themselves is excluded by unbounded integers.
- `ElfLink.Link`: targets are places in input sections or absolute values; symbol resolution is `Resolve`'s, and synthesized sections (GOT, PLT, TLS, unwind header) are not added.
- `Loh.ParseLoh`: an allocator that refuses a request a vector may make is not modelled; the source would abort there.
- `StringTable.BuildWithNameOffsets`: nothing is claimed about sharing, because a repeated name that is stored once is stored again by the strict search.
- `StringTable.Finish`: offsets are claimed for tables below 2^32 bytes, where the source's conversion to 32 bits loses nothing.
- `StringTable.GetStored`: names are bytes; the UTF-8 check of `get` is dropped.
- `HashTable.Lookup`: the lookup is the loader's, not this program's; only the table it walks is.
- Sorting and `partition_point` of the standard library are modelled by what they guarantee.
- Rewriting of instructions from optimization hints: it needs the meaning of ARM64 instructions.
