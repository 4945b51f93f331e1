# Verified model of libbpf and the XDP helpers beside it

The project models the algorithmic core of the repository: the BTF deduplicator and BTF
section handling of the bundled libbpf, the AF_XDP rings, the loader's relocation, perf
ring reader and pin transactions, JIT line info, and the packet, hash and SYN-cookie
helpers around it. `dafny verify dfyconfig.toml` checks all of it.

**BTF deduplication.** A type graph is a sequence of descriptors (`BtfTypes`); what an id
means is the tree that the graph unfolds into from there, to every depth, so cyclic graphs
have a meaning too. `CanonMap` is the canonical map `d->map`, a forest; `HypotMap` is the
hypothetical map of an equivalence check, and why a map all of whose pairs are closed
relates only types that mean the same (a bisimulation up to the canonical map);
`EquivCheck` compares single descriptors; `EquivMeaning` says what the verdict of a check
means; `DedupSpec`, `RefPass` and `OutputGraph` hold
what passes 2 and 3, pass 4, and passes 5 and 6 keep, and `OneCopy` says when no two types of
one meaning are left; `FwdRun` follows one run in which a resolved FWD decides. `Dedup` has the passes as methods of
a class that change the maps step by step, `BtfStrings` is pass 1, and `BtfDedupAll` is
`btf__dedup` as a whole. `BtfSection` parses and compacts the bytes that the graph is read
from, and `BtfExt` handles the `.BTF.ext` sections.

**Rings.** `XskRing` reasons about every interleaving of producer and consumer steps, with
counts that never wrap beside the 32-bit counters that do; `XskObjects` has the functions
of `xsk.h` as methods on shared memory, each proved to take such a step. `PerfRing` reads
the perf ring.

**Loader.** `Linker` collects and applies relocations and proves that the linked program
runs as the two-section program does. `Pinning` pins objects with rollback. `ProgLinfo`
splits and searches JIT line info.

**Helpers.** `Vlan` pushes, pops and parses VLAN tags; `Jhash` is the Jenkins hash in its
variants; `SynCookie` is the controller. `Bits` and `Memory` hold the arithmetic of masks,
wrapped counters and little-endian words, and `Common` what several modules share.

Points where a reading was chosen:

- The `hypot_map` check also succeeds for FWDs in `libbpf/src/btf.c:2077-2094`; the comment
  at `libbpf/src/btf.c:1989-1995` calls that imprecise. Meaning is claimed where no FWD is
  resolved, by request or because there is none; the structural invariants in both modes.
- `hypot_map` holds one candidate per canonical-side id, so `libbpf/src/btf.c:2055-2057` makes
  the check fail on some types that mean the same, and the output can keep two structs of one
  meaning. `BtfDedupAll.DedupTwins` is such an input. `EquivMeaning.CheckDecidesMeaning` is the
  exact condition for one check, `OneCopy.NoCopiesIff` for the output of a whole run, and
  `OneCopy.TwinFree` a condition on the input alone that is enough.
- `libbpf/src/bpf_prog_linfo.c:49` leaves its loop as soon as the last function starts, so
  nothing is checked about the last block but its start. The model does the same. Lookups in a
  block are right exactly when its addresses never fall (`ProgLinfo.LookupIsNearestIff`), and
  `ProgLinfo.LastBlockMayFail` is an accepted input where they do.
- `common/parsing_helpers.h:63-100` accepts a tag that is cut off and
  `common/parsing_helpers.h:204-243` gives up there; they still agree on every frame.
- Pushing onto a frame whose tags use up the parser's depth changes what is parsed; the
  exact condition is in `Vlan.PushKeepsParseIff`, an input in `Vlan.SixthTagIsNotParsed`.
- A relocated call wraps around when its distance does not fit 32 bits; the exact condition
  is in `Linker.CallLandsIff`, an input in `Linker.FarCallWraps`.
- `src/controller.c:116` compares the four-bit field `res` with one, so other nonzero
  values make no difference (`SynCookie.ReservedDroppedIff`). Fields are host-order numbers, since the code does
  no byte-order conversion.

## Model

| member | source | states |
|---|---|---|
| `BtfDedupAll.BtfDedup` | libbpf/src/btf.c:1026-1071 | All six passes: the error is `-EINVAL` exactly when a visited name offset does not start a string or a kind is unknown, `-ELOOP` exactly when a cycle runs through reference types only, 0 otherwise; on success every reference is in range and neither section grows. Where no FWD is resolved (`dont_resolve_fwds`, or no FWD in the input) every input id unfolds at its new id into the same tree, to every depth, and no two output ids mean the same exactly when FWDs are apart and no struct or union is blocked at its turn; an input without twins below a struct is enough for that |
| `BtfDedupAll.DedupTwins` | libbpf/src/btf.c:1026-1071 | An input of which the output keeps two structs of one meaning |
| `BtfDedupAll.DedupResolved` | libbpf/src/btf.c:1026-1071 | A run with FWDs resolved, whose output keeps two structs x because one points to what the FWD stands for and the other to a larger struct of the same name |
| `Dedup.BtfDedup.Run` | libbpf/src/btf.c:1038-1066 | Passes 2 to 6 on the type graph: exact error condition; the map is a typed forest on every exit, errors included, and on success all chains end self-mapped; the output is the canonical part of the input with every reference replaced. Where no FWD is resolved its meaning is preserved, and it has no two ids of one meaning exactly when FWDs are apart and no turn of pass 3 is blocked |
| `BtfDedupAll.RenamingKeepsKinds` | libbpf/src/btf.c:1373-1434 | Renaming strings changes neither the kinds nor the reference cycles of a graph |
| `BtfTypes.CandidateMatchIsEquality` | libbpf/src/btf.c:1572-1817 | The kind-specific comparisons of passes 2 and 4 hold exactly for equal descriptors, also between kinds that share a bucket |
| `Dedup.RoundupPow2Max` | libbpf/src/btf.c:1219-1226 | The table size is the smallest power of two that is at least the request, capped |
| `Bits.AndMask` | libbpf/src/btf.c:1123-1147 | Masking with a power of two minus one is the remainder, so a masked hash is a bucket |
| `CanonMap.LinkEnds` | libbpf/src/btf.c:2222-2245 | Linking one chain end to another keeps the map a forest |
| `CanonMap.RootIsUnique` | libbpf/src/btf.c:1913-1918 | The end of a chain is determined by the map alone |
| `CanonMap.LinkEndsTyped` | libbpf/src/btf.c:2222-2245 | Links keep joining equal name offsets and declared kinds and never go from a struct or union to a FWD |
| `CanonMap.FlagMeansUnion` | libbpf/src/btf.c:1941-1945 | The kind flag of a FWD means a union: no link joins a FWD without it to a union, or one with it to a struct |
| `CanonMap.LinkEndsSound` | libbpf/src/btf.c:2222-2245 | A link between types that mean the same leaves every id meaning what its chain end means |
| `DedupSpec.CanonLink` | libbpf/src/btf.c:1822-1886 | A link keeps the whole invariant of the canonical map |
| `Dedup.BtfDedup.constructor` | libbpf/src/btf.c:1229-1282 | A new deduplicator has a power-of-two table of empty buckets, void canonical and nothing else mapped, and meets the invariants of passes 2 and 3 |
| `Dedup.BtfDedup.ResolveTypeId` | libbpf/src/btf.c:1913-1918 | Terminates, and returns the end of the chain |
| `Dedup.BtfDedup.ResolveFwdId` | libbpf/src/btf.c:1924-1939 | The end of its chain for a FWD that has been resolved, that is, whose chain ends at no FWD; any other id unchanged |
| `Dedup.BtfDedup.FindCandidate` | libbpf/src/btf.c:1843-1877 | Finds a bucket entry equal to the type if there is one, and only then |
| `Dedup.BtfDedup.DedupPrimType` | libbpf/src/btf.c:1822-1886 | Fails exactly on an unknown kind; keeps the forest, and keeps primitive types of the ids done mapped exactly |
| `Dedup.BtfDedup.DedupPrimTypes` | libbpf/src/btf.c:1888-1898 | After pass 2 every primitive type is mapped to a canonical equal one; fails exactly when some kind is unknown |
| `DedupSpec.PrimExactIff` | libbpf/src/btf.c:1822-1898 | Whatever the table size and the collisions, two primitive types share a canonical id iff they are equal |
| `EquivCheck.VerdictIsShape` | libbpf/src/btf.c:2066-2168 | A local comparison that succeeds settles the shape of both descriptors, and one without children settles equality, or a FWD opposite what it declares |
| `EquivCheck.DifferIsHopeless` | libbpf/src/btf.c:2066-2168 | Descriptors that compare as different can never be a closed pair |
| `HypotMap.ChildDecides` | libbpf/src/btf.c:2095-2160 | Every bisimulation that pairs two types must relate what they mention: a child that cannot be related settles the pair, and what a child forces the pair forces |
| `HypotMap.RelatedIff` | libbpf/src/btf.c:2049-2058 | On the canonical side a resolved FWD is looked up as what it stands for, and anything else as itself: two ids are related exactly when both ends are one, or the recorded candidate is the other |
| `HypotMap.VerdictIsExact` | libbpf/src/btf.c:2039-2169 | From an empty hypothetical map the check succeeds exactly when some hypothetical map with closed pairs, one candidate per canonical-side id, relates the two types |
| `EquivMeaning.CheckDecidesMeaning` | libbpf/src/btf.c:2039-2169 | Where no FWD is resolved and equal names have equal offsets, the check succeeds if and only if the two types mean the same, its walk meets no canonical-side id opposite two candidates, and no two FWDs with different unused type words |
| `EquivMeaning.CheckIsSame` | libbpf/src/btf.c:2039-2169 | For a candidate that reaches no two ids of one meaning, unless all ids of that meaning have one canonical id, and FWDs with zero type words, the check succeeds if and only if the two types mean the same |
| `EquivMeaning.TwinsAreToldApart` | libbpf/src/btf.c:2055-2057 | A graph on which the check fails although the two structs mean the same: one has two members of one pointer type, the other members of two equal pointer types |
| `DedupSpec.EquivalentMeans` | libbpf/src/btf.c:2283-2309 | What pass 3 asks of a canonical struct or union, in terms of meaning |
| `DedupSpec.BucketHasAll` | libbpf/src/btf.c:2281-2283 | A canonical struct or union that could stand for a type is in that type's bucket, so looking through one bucket is looking through all |
| `EquivMeaning.OddFwdsAreToldApart` | libbpf/src/btf.c:2097-2098 | The other way to fail on types that mean the same: two FWDs whose unused type words differ |
| `HypotMap.PairsMeanTheSame` | libbpf/src/btf.c:2039-2169 | Every pair of a bisimulation up to a sound canonical map means the same at every depth, cycles included |
| `HypotMap.PairsTyped` | libbpf/src/btf.c:2072-2094 | In both FWD modes a pair has one name offset and one declared kind |
| `Dedup.BtfDedup.HypotMapAdd` | libbpf/src/btf.c:1149-1164 | Records one pair and lists it once |
| `Dedup.BtfDedup.ClearHypotMap` | libbpf/src/btf.c:1166-1173 | Undoing the listed entries leaves no pair recorded |
| `Dedup.BtfDedup.IsEquiv` | libbpf/src/btf.c:2039-2169 | Terminates because each call records a pair; 1 means the two are related, resolved FWDs taken for what they stand for, and all new pairs are closed, and every way to relate them contains those pairs; 0 means there is no way; an error means an unknown kind |
| `Dedup.BtfDedup.EquivChildren` | libbpf/src/btf.c:2095-2160 | The children of a recorded pair, index type of an array first: 1 closes the pair, 0 means the pair cannot be closed |
| `Dedup.BtfDedup.SetLink` | libbpf/src/btf.c:2222-2245 | One entry of the map changes, and all invariants and resolutions are kept |
| `Dedup.BtfDedup.MergePair` | libbpf/src/btf.c:2205-2245 | The exact new map and the exact ends of all chains: a FWD end is linked to what stands opposite, an unmapped struct or union to a mapped one; afterwards a FWD paired with a struct or union resolves to one, and a struct or union opposite a mapped one is mapped |
| `Dedup.BtfDedup.MergeHypotMap` | libbpf/src/btf.c:2197-2247 | The exact new map: all listed pairs are merged, in that order; the checked type is linked to its canonical one, mapped structs keep their links, and every FWD paired with a struct or union is resolved |
| `DedupSpec.CheckIsMerged` | libbpf/src/btf.c:2197-2247 | What a successful check recorded is the least set of pairs that relates the two types, so what is merged depends on the types and the map only |
| `DedupSpec.CheckSucceeded` | libbpf/src/btf.c:2296-2309 | A successful check from an empty map yields facts about every pair that allow merging, and its first pair is the two types compared |
| `Dedup.BtfDedup.TryCandidate` | libbpf/src/btf.c:2296-2308 | Returns 0 exactly when no hypothetical map with one candidate per canonical-side id relates the two; where no FWD is resolved, returns 1 exactly when they mean the same and the walk meets no clash; on 0 the map is unchanged, on 1 it is what merging the pairs of the least such map gives, and the type is linked to the candidate |
| `Dedup.BtfDedup.FindEquivalent` | libbpf/src/btf.c:2283-2309 | The candidate returned is in the bucket and equivalent, and the new map comes from merging the least pairs that relate the two; none is returned only if no bucket entry is equivalent |
| `Dedup.BtfDedup.DedupStructType` | libbpf/src/btf.c:2265-2318 | A struct or union becomes canonical and is added to its bucket exactly when no canonical one, in any bucket, passes the check against it; otherwise it is mapped to one that does, and the map changes by merging exactly the least pairs that relate the two |
| `Dedup.BtfDedup.DedupStructTypes` | libbpf/src/btf.c:2320-2332 | Cannot fail when kinds are known, maps every type that is not a reference type, and each turn is the step described for one type |
| `OneCopy.TurnKeepsOneEachIff` | libbpf/src/btf.c:2265-2318 | As long as mapped types of one meaning have one canonical id, a turn of pass 3 keeps it so exactly when it is not blocked: no canonical type of the same meaning whose check meets a clash |
| `OneCopy.PassThreeIff` | libbpf/src/btf.c:2320-2332 | Pass 3 leaves one canonical id per meaning among what is mapped exactly when FWDs that mean the same are equal and no turn is blocked |
| `OneCopy.TwinFreeIsUnblocked` | libbpf/src/btf.c:2320-2332 | If no two ids below a struct or union mean the same, unless they are primitive, no turn is blocked |
| `OneCopy.TwinsStay` | libbpf/src/btf.c:2320-2332 | On the graph of twins every run of pass 3 makes both structs canonical |
| `FwdRun.StaysApart` | libbpf/src/btf.c:2053-2058 | On a graph with a FWD, every run of pass 3 with FWDs resolved maps the FWD to the definition its pointer was matched with, and keeps apart the struct that points to the other definition |
| `RefPass.BeginOk` | libbpf/src/btf.c:2356-2371 | Marking a type as in progress keeps the invariant of pass 4 |
| `RefPass.RewriteOk` | libbpf/src/btf.c:2373-2448 | Rewriting a slot of the type in progress keeps the invariant of pass 4 |
| `RefPass.FinishOk` | libbpf/src/btf.c:2373-2458 | Mapping a fully rewritten type to an equal canonical one, or to itself when the bucket has none, keeps the invariant of pass 4, meaning included |
| `RefPass.RefExactIff` | libbpf/src/btf.c:2356-2459 | Two finished reference types share a canonical id iff they are equal once their references are canonical |
| `OneCopy.RefsFollow` | libbpf/src/btf.c:2356-2459 | If nonreference types of one meaning have one canonical id, after pass 4 all types of one meaning do |
| `RefPass.StackCloses` | libbpf/src/btf.c:2363-2364 | Meeting a type in progress closes a cycle of reference types |
| `RefPass.NoCycleLeft` | libbpf/src/btf.c:2461-2472 | When every type is mapped there is no cycle through reference types only |
| `RefPass.PendingShrinks` | libbpf/src/btf.c:2356-2371 | The set of unprocessed ids never grows and loses each id that is begun |
| `Dedup.BtfDedup.DedupRefType` | libbpf/src/btf.c:2356-2459 | Terminates on every graph; returns the canonical id and leaves everything mapped or in progress alone, or reports a cycle that exists; the invariant of the pass holds on both exits |
| `Dedup.BtfDedup.RewriteSlots` | libbpf/src/btf.c:2373-2448 | All references of the type in progress are replaced by canonical ids of types finished before it |
| `Dedup.BtfDedup.FinishRef` | libbpf/src/btf.c:2373-2458 | The rewritten type is looked up and mapped to the equal type, or becomes canonical |
| `Dedup.BtfDedup.DedupRefTypes` | libbpf/src/btf.c:2461-2472 | `-ELOOP` exactly when a cycle runs through reference types only; otherwise everything is mapped; the map is a typed forest on both exits |
| `Dedup.BtfDedup.CompactTypes` | libbpf/src/btf.c:2485-2518 | The canonical descriptors, in order, are what is left, and they are numbered from 1 on |
| `Dedup.BtfDedup.MoveDown` | libbpf/src/btf.c:2493-2509 | The numbering loop: descriptors not reached yet are untouched by those moved down |
| `OutputGraph.NumberingIsOrderIsomorphism` | libbpf/src/btf.c:2493-2509 | New ids are an order-preserving bijection from the canonical ids |
| `OutputGraph.NumberingIsUnique` | libbpf/src/btf.c:2493-2509 | A map has only one numbering |
| `OutputGraph.EndsAreNumbered` | libbpf/src/btf.c:2541-2550 | After pass 4 every chain ends at a canonical id with a new number, so remapping cannot fail |
| `Dedup.BtfDedup.RemapTypeId` | libbpf/src/btf.c:2541-2550 | The number of the chain end, or `-EINVAL` if it has none |
| `Dedup.BtfDedup.RemapType` | libbpf/src/btf.c:2562-2638 | Every reference of the descriptor becomes the new id of what it resolved to; nothing else changes |
| `Dedup.BtfDedup.RemapTypes` | libbpf/src/btf.c:2640-2650 | Every descriptor is remapped, and no remapping fails |
| `Dedup.BtfDedup.LastPasses` | libbpf/src/btf.c:1057-1066 | Passes 5 and 6 cannot fail after pass 4, and give the output graph with its numbering |
| `OutputGraph.OutputWf` | libbpf/src/btf.c:2640-2650 | Every reference of the output is in range and every descriptor is well formed |
| `OutputGraph.OutputMeans` | libbpf/src/btf.c:2541-2650 | Read from its new id, every input type unfolds in the output as it did in the input, to every depth |
| `OneCopy.OutputIff` | libbpf/src/btf.c:2485-2650 | No two output ids mean the same exactly when input ids of one meaning have one canonical id |
| `OneCopy.NoCopiesIff` | libbpf/src/btf.c:1038-1066 | Over every run of passes 3 to 6: the output has no two ids of one meaning exactly when FWDs are apart and no turn is blocked |
| `OutputGraph.PassesProduceOutput` | libbpf/src/btf.c:2485-2650 | The final state of pass 4, numbered and remapped, is an output graph of the input |
| `BtfStrings.Qsort` | libbpf/src/btf.c:1375-1391 | The result is sorted and a permutation |
| `BtfStrings.BuildIndex` | libbpf/src/btf.c:1463-1496 | Every string start of the section, and only those, gets one entry |
| `BtfStrings.EmitGroups` | libbpf/src/btf.c:1511-1541 | Every used string reads the same at its new offset, two used strings share one exactly when they are equal, those equal to the first get 0, and no more is written than was read |
| `BtfStrings.Bsearch` | libbpf/src/btf.c:1393-1417 | Finds the entry of an offset iff there is one |
| `BtfStrings.MarkSeq` | libbpf/src/btf.c:1402-1417 | Marks the visited offsets, or fails exactly when one of them does not start a string |
| `BtfStrings.RemapSeq` | libbpf/src/btf.c:1419-1434 | Replaces each visited offset by its new one |
| `BtfStrings.Renumber` | libbpf/src/btf.c:1501-1553 | Used strings keep their content under their new offsets, equal strings share one, 0 stays 0, and the section does not grow |
| `BtfStrings.RenamedGraphMeans` | libbpf/src/btf.c:1288-1373 | A graph with renamed offsets unfolds as before, to every depth |
| `BtfStrings.RenamedNamesApart` | libbpf/src/btf.c:1503-1541 | After string deduplication equal names have equal offsets everywhere in the graph |
| `BtfStrings.StringTable.MarkAll` | libbpf/src/btf.c:1288-1373 | Visits every name offset of types and line info; fails exactly when one does not start a string |
| `BtfStrings.StringTable.RemapAll` | libbpf/src/btf.c:1288-1373 | Rewrites every visited offset through one map |
| `BtfStrings.StringTable.DedupStrings` | libbpf/src/btf.c:1447-1560 | Fails exactly when a visited offset does not start a string; otherwise every visited reference denotes the string it did, equal strings and only those share an offset, also across types, 0 stays 0, the section does not grow, and the graph unfolds as before |
| `BtfSection.DecodeInfoExact` | libbpf/include/uapi/linux/btf.h:31-56 | The fields of an info word determine the word |
| `BtfSection.InfoWordIs` | libbpf/include/uapi/linux/btf.h:56-58 | The kind is in bits 24 to 27, the flag in bit 31 and the number of slots in the low 16 bits |
| `BtfSection.KindNumbers` | libbpf/include/uapi/linux/btf.h:60-75 | The number of every kind, and which kinds are known, primitive, composite and references |
| `BtfSection.FieldsAre` | libbpf/include/uapi/linux/btf.h:31-108 | In which word of its block each field of an integer, an array and a type with a size or a reference lies |
| `BtfSection.SlotsAre` | libbpf/include/uapi/linux/btf.h:94-139 | In which word name, type and value of every member, enumerator and parameter lie |
| `BtfSection.DecodeInjective` | libbpf/src/btf.c:190-219 | Different descriptor blocks decode into different descriptors |
| `BtfSection.ParseTypeSec` | libbpf/src/btf.c:221-243 | The index tiles the section with descriptors up to where the walk stopped; it fails exactly at an unknown kind |
| `BtfSection.TilesExactlyIff` | libbpf/src/btf.c:221-243 | The descriptors fill the section up to the strings exactly when the walk stops there |
| `BtfSection.LastMayReachPast` | libbpf/src/btf.c:221-243 | An accepted section whose last descriptor reaches past the start of the strings |
| `BtfSection.Memmove` | libbpf/src/btf.c:2506-2527 | An overlapping move down copies the old bytes and leaves all others |
| `BtfSection.CompactSection` | libbpf/src/btf.c:2485-2533 | In-place compaction of the bytes: each kept descriptor arrives byte for byte and decodes as before, in order and without gaps, and the strings follow intact |
| `BtfSection.CompactionsAgree` | libbpf/src/btf.c:2485-2533 | Compacting the bytes and compacting the graph read from them come to the same ids and the same descriptors |
| `BtfExt.SetupInfo` | libbpf/src/btf.c:604-688 | Accepts exactly an aligned section in range whose headers and records tile it, and returns where the records are |
| `BtfExt.TilesIff` | libbpf/src/btf.c:645-682 | A section is tiled exactly when it is headers and records back to back, each header a name and a nonzero count |
| `BtfExt.AcceptedIff` | libbpf/src/btf.c:604-688 | Accepted is what is aligned, in range, with records of a legal size and at least one section, back to back to the end |
| `BtfExt.RelocInfo` | libbpf/src/btf.c:801-847 | Appends exactly the records of the first section of that name, with moved instruction offsets, and leaves earlier records unchanged; `-ENOENT` exactly when there is none; no 32-bit overflow |
| `BtfExt.FirstMatchIs` | libbpf/src/btf.c:815-845 | The section looked up is the first whose name is the one asked for, or there is none of that name |
| `BtfExt.RecordsAre` | libbpf/src/btf.c:815-829 | The records are the bytes behind the eight of the header, as many as it counts |
| `BtfExt.TwoSectionsFit` | libbpf/src/btf.c:604-688 | Two sections of different names fit into an accepted info section together |
| `BtfExt.RelocBoth` | libbpf/src/libbpf.c:1278-1319 | The loader's two calls, for the program and for `.text`, gather the records of both without overflow |
| `BtfExt.AdjustOffsets` | libbpf/src/btf.c:829-838 | The in-place loop adjusts each appended record |
| `BtfExt.AdjustRecordMeans` | libbpf/src/btf.c:829-838 | The instruction offset becomes `insn_off / 8 + insns_cnt` and the rest of the record stays |
| `BtfExt.AdjustMore` | libbpf/src/btf.c:829-838 | Adjusting a prefix and one more record is adjusting the longer prefix |
| `XskRing.WrappedDifference` | libbpf/src/xsk.h:74-103 | The 32-bit difference of two wrapped counters is their true difference |
| `XskRing.SlotOfWrapped` | libbpf/src/xsk.h:42-72 | Masking a wrapped index finds the slot of the true index |
| `XskRing.CachedFreeIsSafe` | libbpf/src/xsk.h:74-91 | The free count computed from cached counters never exceeds the true one |
| `XskRing.CachedAvailIsSafe` | libbpf/src/xsk.h:93-103 | The available count computed from cached counters never exceeds the true one |
| `XskRing.ReserveOk` | libbpf/src/xsk.h:105-115 | All or nothing, as an exact function of the true counts: granted exactly when enough entries are free by what the producer last saw, which is looked at again only if fewer are free than asked for in 32 bits; never hands out an unreleased entry |
| `XskRing.WriteOk` | libbpf/src/xsk.h:42-64 | A write to a reserved entry overwrites nothing submitted and not released, and nothing else written and not submitted |
| `XskRing.SubmitOk` | libbpf/src/xsk.h:117-125 | Submitting publishes the values written: whatever was last written to an entry is the value submitted in its place |
| `XskRing.PeekOk` | libbpf/src/xsk.h:127-143 | Hands out exactly as many as are asked for in 32 bits, or all that are known to be there if that is fewer; the producer is looked at again only when none is known to be there |
| `XskRing.ReadOk` | libbpf/src/xsk.h:50-72 | Between peek and release an entry holds what was submitted in its place, which is what was last written there |
| `XskRing.ReleaseOk` | libbpf/src/xsk.h:145-148 | Releasing keeps the ring consistent |
| `XskRing.StepGood` | libbpf/src/xsk.h:42-148 | Every step of either side keeps the ring consistent, the received values a prefix of the submitted ones, and written values where they belong |
| `XskRing.EveryRunDelivers` | libbpf/src/xsk.h:42-148 | After any interleaving of any length, across any number of wrap-arounds, the consumer has received exactly the first released values, in order, and each entry written in the run with the last value written to it |
| `XskRing.InitialGood` | libbpf/src/xsk.c:224 | The initial state, with `cached_cons` ahead by the ring size, is consistent |
| `XskObjects.SharedRing.constructor` | libbpf/src/xsk.c:623 | A new ring is in the initial state |
| `XskObjects.SharedRing.ProdNbFree` | libbpf/src/xsk.h:74-91 | In-place form of the producer refresh |
| `XskObjects.SharedRing.Reserve` | libbpf/src/xsk.h:105-115 | Grants exactly what the true counts allow, and the index is the true one, wrapped |
| `XskObjects.SharedRing.Store` | libbpf/src/xsk.h:42-64 | A store through the masked index is the write step of the model |
| `XskObjects.SharedRing.Submit` | libbpf/src/xsk.h:117-125 | Takes the step of the model |
| `XskObjects.SharedRing.ConsNbAvail` | libbpf/src/xsk.h:93-103 | In-place form of the consumer refresh |
| `XskObjects.SharedRing.Peek` | libbpf/src/xsk.h:127-143 | Hands out exactly the smaller of what is asked for and what is known to be there, and the index is the true one, wrapped |
| `XskObjects.SharedRing.Load` | libbpf/src/xsk.h:50-72 | A peeked entry reads as the value submitted in its place, and as the value last written there |
| `XskObjects.SharedRing.Release` | libbpf/src/xsk.h:145-148 | Takes the step of the model |
| `Linker.ClassifyReloc` | libbpf/src/libbpf.c:976-1047 | One record becomes a call or a load of the first map at its symbol's offset, or the error of the first test it fails |
| `Linker.ClassifyIff` | libbpf/src/libbpf.c:976-1047 | Which records are good, and which of the two errors the others give |
| `Linker.CollectReloc` | libbpf/src/libbpf.c:957-1049 | Succeeds exactly when every record is good, and otherwise reports the first bad one |
| `Linker.CollectedIsWf` | libbpf/src/libbpf.c:957-1049 | What was collected, with one record per instruction, is an object that can be linked |
| `Linker.Program.RelocText` | libbpf/src/libbpf.c:1322-1374 | Appends `.text` the first time only and makes the call relative to it; the error condition is exact |
| `Linker.Program.Relocate` | libbpf/src/libbpf.c:1375-1419 | Fails exactly when a call has no `.text` to go to, is in `.text` itself, or a map load lies outside the program as it is by then; otherwise the result is the program, `.text` behind it at most once, with the relocations applied one after the other |
| `Linker.FixedAt` | libbpf/src/libbpf.c:1375-1419 | With one relocation per instruction exactly the instructions of relocations change, each as its relocation says |
| `Linker.LinkedInsn` | libbpf/src/libbpf.c:1375-1419 | Which instruction the linked program holds for each place of the two sections |
| `Linker.LoadGetsFd` | libbpf/src/libbpf.c:1401-1403 | Every map load of a linked program holds the fd of its own map and the mark of a map fd, and is otherwise unchanged |
| `Linker.CollectedLoadGetsFd` | libbpf/src/libbpf.c:957-1419 | From record to program: the instruction at the record's offset loads the fd of the first map at its symbol's offset |
| `Linker.CallIsMoved` | libbpf/src/libbpf.c:1370-1372 | Every call into `.text` is moved by the length of the program less its own index, and is otherwise unchanged |
| `Linker.CallLandsIff` | libbpf/src/libbpf.c:1370-1372 | A call to `.text` index k lands at `main_prog_cnt + k` iff the distance fits 32 bits |
| `Linker.FarCallWraps` | libbpf/src/libbpf.c:1370-1372 | A call whose distance does not fit: relocated, it goes backwards |
| `Linker.StepSimulates` | libbpf/src/libbpf.c:1322-1419 | One step of the two-section program is one step of the linked program |
| `Linker.LinkedRunSimulates` | libbpf/src/libbpf.c:1322-1419 | For any meaning of the other instructions and any number of steps, the linked program runs as the two-section program does, in which a load takes the fd of its map |
| `PerfRing.RecordSlices` | libbpf/src/libbpf.c:2966-2991 | A record that lies in the ring, wrapped or not, is the one or two slices the reader copies |
| `PerfRing.RecordIff` | libbpf/src/libbpf.c:2966-2968 | A record is at least a header long, and the little-endian number in bytes six and seven is its length |
| `PerfRing.BuiltIsRecord` | libbpf/src/libbpf.c:2966-2968 | Type word, misc, 16-bit size and payload make a record, for every type, misc and payload that fits |
| `PerfRing.FetchEvent` | libbpf/src/libbpf.c:2970-2991 | The event handed over is contiguous or stitched from two slices |
| `PerfRing.NextEvent` | libbpf/src/libbpf.c:2966-2991 | The event at the tail is the next record, byte for byte, unless allocation fails |
| `PerfRing.ReadOneMore` | libbpf/src/libbpf.c:2993-2996 | The wrapped tail advances by the size handed over and meets the head exactly when no record is left |
| `PerfRing.ReadSimple` | libbpf/src/libbpf.c:2953-2999 | Hands over exactly a prefix of the records, intact, and publishes a tail advanced by exactly their sizes, also on early stop or failed allocation; it stops early only for one of these |
| `Pinning.AddedSplit` | libbpf/src/libbpf.c:1963-1992 | What was added in two parts can be taken away in two parts |
| `Pinning.DecimalSpells` | libbpf/src/libbpf.c:1953 | Instance numbers are spelled in decimal digits that read as the number, without leading zeros |
| `Pinning.PathsAre` | libbpf/src/libbpf.c:1927-1961 | Instances are pinned at their number below the program's path, no two at one path |
| `Pinning.NamesAre` | libbpf/src/libbpf.c:2102-2113 | Maps are pinned at their name below the path; a path fits up to 4095 characters |
| `Pinning.AllProgPathsAre` | libbpf/src/libbpf.c:2188-2204 | Every program is pinned at its own name below the path, or at its instance numbers below that if it has several, and nothing else is pinned for the programs |
| `Pinning.BpfFs.Pin` | libbpf/src/libbpf.c:1853-1882 | Adds a path that was not there, or changes nothing |
| `Pinning.BpfFs.Unpin` | libbpf/src/libbpf.c:1884-1909 | Removes a path, or fails exactly when it is not there |
| `Pinning.BpfFs.PinAll` | libbpf/src/libbpf.c:1946-1992 | All paths are added or none; without a refusal by the kernel it succeeds when all fit and all are free |
| `Pinning.BpfFs.UnpinBackwards` | libbpf/src/libbpf.c:1972-1990 | Rolling back removes exactly what was added |
| `Pinning.BpfFs.UnpinForwards` | libbpf/src/libbpf.c:2142-2167 | Unpinning what was just pinned succeeds and restores the state |
| `Pinning.BpfFs.PinProgram` | libbpf/src/libbpf.c:1927-1992 | All instances are pinned or nothing is |
| `Pinning.BpfFs.UnpinProgram` | libbpf/src/libbpf.c:1994-2038 | Undoes a pin of the same program |
| `Pinning.BpfFs.PinMaps` | libbpf/src/libbpf.c:2086-2140 | All maps are pinned or nothing is |
| `Pinning.BpfFs.PinPrograms` | libbpf/src/libbpf.c:2169-2223 | All programs are pinned or nothing is, through nested rollback |
| `Pinning.BpfFs.UnpinProgramsBackwards` | libbpf/src/libbpf.c:2208-2222 | Rolling back the programs pinned so far restores the state |
| `Pinning.BpfFs.PinObject` | libbpf/src/libbpf.c:2252-2267 | All of the object is pinned or the pinned paths are as they were, whichever step fails; it succeeds when the kernel refuses nothing and all paths fit and are free |
| `ProgLinfo.Linfo.Dissect` | libbpf/src/bpf_prog_linfo.c:25-89 | Succeeds exactly when the records can be split into consecutive nonempty blocks, one per function, each starting at its function's address, rising strictly and within its length in all but the last; and then records that split |
| `ProgLinfo.Goes` | libbpf/src/bpf_prog_linfo.c:49-74 | What the search does at a record is forced on every possible split |
| `ProgLinfo.Linfo.LfindAddrFunc` | libbpf/src/bpf_prog_linfo.c:183-219 | Nothing for a bad function; otherwise the answer of the search in its block, which is the nearest record, or none if none is at or below the address, in every block but the last, and in the last if its addresses never fall |
| `ProgLinfo.Linfo.Lfind` | libbpf/src/bpf_prog_linfo.c:221-250 | The same by instruction offset over all records, nearest if the offsets never fall |
| `ProgLinfo.Scan` | libbpf/src/bpf_prog_linfo.c:207-218 | The search loop finds the last leading record not above the key |
| `ProgLinfo.LookupIsNearestIff` | libbpf/src/bpf_prog_linfo.c:183-219 | Among some records every lookup, whatever it skips and searches for, gives the nearest record, or none exactly if none is at or below the target, if and only if the addresses never fall |
| `ProgLinfo.BlockNeverFalls` | libbpf/src/bpf_prog_linfo.c:49-74 | In every block but the last of an accepted split the addresses never fall |
| `ProgLinfo.LastBlockMayFail` | libbpf/src/bpf_prog_linfo.c:49-51 | An accepted last block whose addresses fall, and a lookup in it that misses the nearest record |
| `Vlan.ParseEthhdr` | common/parsing_helpers.h:63-100 | Inner type and cursor after at most the maximal number of tags, stopping at a tag that is cut off |
| `Vlan.ParseIp6hdr` | common/parsing_helpers.h:102-119 | Next header and cursor, or -1 exactly when the header does not fit |
| `Vlan.GetEthhdr` | common/parsing_helpers.h:188-202 | The header and the cursor behind it, exactly when it fits |
| `Vlan.GetIp6hdr` | common/parsing_helpers.h:204-243 | The IPv6 header exactly when parsing the tags leads to one that fits; otherwise the cursor stays |
| `Vlan.TagTypes` | common/parsing_helpers.h:57-61 | Exactly the types 0x8100 and 0x88A8, high byte first, announce a tag |
| `Vlan.Ip6BothWays` | common/parsing_helpers.h:63-119 | Both ways to the IPv6 header agree on every frame, and leave both cursors right behind it |
| `Vlan.PushThenPop` | common/rewrite_helpers.h:22-108 | On frames: popping a pushed frame restores it byte for byte, and the tag in it is the one pushed, in 16 bits |
| `Vlan.XdpMd.PushPop` | common/rewrite_helpers.h:22-108 | In place: a push followed by a pop leaves the frame as it was and returns the pushed tag, in 16 bits; without headroom nothing happens |
| `Vlan.PushKeepsParseIff` | common/rewrite_helpers.h:69-108 | Pushing keeps the parsed payload iff the parser has a level to spare, and then the inner type too |
| `Vlan.SixthTagIsNotParsed` | common/parsing_helpers.h:63-100 | A frame with five tags, on which one more changes what is parsed |
| `Vlan.PushedParse` | common/parsing_helpers.h:63-100 | A pushed frame is parsed one tag further until the depth is used up |
| `Vlan.XdpMd.Push` | common/rewrite_helpers.h:69-108 | In place: the frame gets the tag, or stays as it was exactly when there is no headroom |
| `Vlan.XdpMd.Pop` | common/rewrite_helpers.h:22-64 | In place: the outer tag is removed and returned, or -1 and the frame unchanged exactly when there is no complete tag |
| `Jhash.RolFits` | headers/jhash.h:25-28 | The two halves of a rotation do not overlap: their bitwise or is their sum and fits 32 bits |
| `Jhash.RotationIs` | headers/jhash.h:25-28 | A rotation moves the low bits up and brings the high bits down, for every amount from 1 to 31 |
| `Jhash.OperationsAre` | headers/jhash.h:33-52 | Sums and differences are taken in 32 bits; the exclusive or goes bit by bit |
| `Jhash.MixLines` | headers/jhash.h:33-41 | The six lines of `__jhash_mix` with their rotation amounts, for every triple |
| `Jhash.FinalLines` | headers/jhash.h:43-52 | The seven lines of `__jhash_final` with their rotation amounts, for every triple |
| `Jhash.MixIsPermutation` | headers/jhash.h:33-41 | `__jhash_mix` is a permutation of 32-bit triples: an inverse undoes it on both sides |
| `Jhash.FinalIsPermutation` | headers/jhash.h:43-52 | `__jhash_final` is a permutation of 32-bit triples |
| `Jhash.Jhash` | headers/jhash.h:68-105 | The byte loop and the falling-through switch compute the recursive hash of the bytes |
| `Jhash.Jhash2` | headers/jhash.h:114-142 | The word loop and its switch compute the recursive hash of the words |
| `Jhash.StartIsSum` | headers/jhash.h:73-74 | All three words start as `JHASH_INITVAL + length + initval` in 32 bits |
| `Jhash.LongHash` | headers/jhash.h:122-130 | With more than three words the first three are added and mixed in |
| `Jhash.ShortHash` | headers/jhash.h:132-141 | One to three words are added to the first words of the state, which is then finalized; without words the third is the hash |
| `Jhash.LongByteHash` | headers/jhash.h:76-83 | With more than twelve bytes the first three little-endian words are added and mixed in |
| `Jhash.TailIsPadded` | headers/jhash.h:85-104 | The last one to twelve bytes count as three words filled up with zeros |
| `Jhash.JhashIsJhash2` | headers/jhash.h:68-142 | For every word array, `jhash` of its little-endian bytes is `jhash2` of the words |
| `Jhash.NwordsAreJhash2` | headers/jhash.h:146-170 | The forms for one, two and three words are `jhash2` on arrays of that length |
| `SynCookie.CookiePinsPorts` | src/controller.c:92-99 | Between two hosts a cookie belongs to exactly one pair of ports |
| `SynCookie.CookieIs` | src/controller.c:92-99 | The cookie is the exclusive or of both ports, the source port in the upper half, and both addresses of the packet |
| `SynCookie.Controller.HandleSyn` | src/controller.c:16-46 | The packet becomes the SYN-ACK with reversed tuple, the cookie as sequence number and the client's number plus one acknowledged; the table is untouched |
| `SynCookie.Controller.HandleAck` | src/controller.c:52-88 | The packet becomes the ACK with reversed tuple and swapped numbers, and the table is updated once |
| `SynCookie.AnswersAre` | src/controller.c:16-88 | Every field of both answers |
| `SynCookie.Controller.Control` | src/controller.c:104-130 | Known connections pass; SYNs are answered; an ACK reaches `handle_ack` exactly when it carries its own tuple's cookie plus one in 32 bits; all else is dropped unchanged |
| `SynCookie.DroppedIff` | src/controller.c:115-129 | Not dropped are exactly a lone SYN and a lone ACK of the number after the cookie in 32 bits, without any other flag |
| `SynCookie.HandledCases` | src/controller.c:104-130 | Known connections pass; what is dropped leaves packet and table alone; everything else is answered according to its ACK flag and enters the table exactly when it has one |
| `SynCookie.ReservedDroppedIff` | src/controller.c:115-120 | A packet with reserved bits set is dropped exactly when they are one, or it is dropped without them too |
| `SynCookie.ReservedBitsMayPass` | src/controller.c:115-120 | A SYN with reserved bits two that is answered |
| `SynCookie.AnsweredSynIsAdmitted` | src/controller.c:16-130 | In every run the client's pure ACK of an answered SYN, at any later point, reaches `handle_ack` unless its tuple is in the table by then |
| `SynCookie.OnlyCookiesChangeTheTable` | src/controller.c:104-130 | Over every run the table is updated by exactly the packets that were not in it and returned their own cookie |

## Left out

- Meaning of the output when FWDs are there and resolved: the code documents that check as a heuristic.
- Allocation failure, freeing, logging and the errors `-ENOMEM` and `-E2BIG`; the growth of `hypot_list` and of the index arrays.
- Arrays of the deduplicator: `map`, `hypot_map`, `hypot_list`, the buckets and the descriptor index are `seq` fields that methods reassign, so aliasing between them is not captured; the byte buffer of compaction is an array.
- Descriptors are columns of one record, not overlaid C structs; `BtfSection.Decode` ties them to words in memory. Bits 16-23 and 29-30 of the info word are carried as one field.
- Section names of `func_info` after string deduplication: the pass visits line info only.
- BtfSection.ParseTypeSec: requires that the first two words of each descriptor the walk gets to are in the buffer, since the source reads them without a check.
- BtfSection.CompactSection: requires that the descriptors end where the strings start or before; where the last one reaches past (`BtfSection.LastMayReachPast`), moving the strings behind it would leave the buffer.
- OneCopy.TwinFree: enough for an output without copies, but not needed; the exact condition speaks of the turns of pass 3, because whether a clash is met depends on what has been mapped by then.
- BtfStrings.Qsort: stands for the C library's `qsort`, whose order among equal elements is unspecified; nothing depends on it.
- BtfStrings.Bsearch: stands for the C library's `bsearch`.
- BtfExt.RelocInfo: requires that the bytes gathered and those of the matching section together stay below 4 GiB, since the source computes their lengths in 32 bits; the loader's own calls meet this (`BtfExt.RelocBoth`).
- Header parsing of `.BTF` and `.BTF.ext`, type lookup by name, and loading BTF into the kernel: field checks and system calls.
- Memory barriers and weak memory in the rings: publishing and refreshing are atomic steps.
- XskRing.EveryRunDelivers: the consumer is taken to read an entry before it releases it, and both sides keep to what the header asks of them (write and submit what was reserved, release what was peeked).
- Linker.CollectReloc: requires the instruction of every record whose symbol is acceptable to be in the program, since the source reads it without a check.
- Linker.Program.Relocate: `.text` as it is when it is appended (already relocated, or without map loads), and no `.BTF.ext` data.
- Linker.LinkedRunSimulates: one relocation per instruction, and runs that stay inside their sections; main falling off its end into `.text` is not such a run.
- ELF reading, map creation and program loading: foreign library and kernel.
- PerfRing.ReadSimple: the producer's records tile the ring between tail and head and no header wraps; the callback is a function of how often it was called and of the event.
- Pinning.BpfFs.PinObject: speaks of pinned paths only; directories made on the way and removed by rollback are not modelled, removing a pin that is there succeeds, and pinning refuses a taken path.
- ProgLinfo: copying of the records out of the kernel's info struct; addresses are numbers, with the length test in 64 bits.
- Vlan.XdpMd.AdjustHead: the kernel's bounds on moving the packet head are the headroom and nothing else.
- SynCookie.Controller.HandleAck: the key handed to the table update at `src/controller.c:56` is any key, and the table is the history of updates with any lookup over it, because the key is the address of a pointer and the trie's semantics live in the kernel; the MAC copies at `src/controller.c:20-22` and `src/controller.c:61-63` are not modelled.
- Header checks of `src/parser.h`, entry point of `src/syncookie.c`: fixed-size bounds checks.
- `libbpf/src/bpf.c`, `libbpf/src/libbpf_probes.c`, `libbpf/src/netlink.c`, socket setup in `libbpf/src/xsk.c`, the loaders and statistics tools: system calls, command lines and printing.
