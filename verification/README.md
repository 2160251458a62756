# Binding normalization and normalized component storage in Fruit

Fruit is a C++ dependency-injection library. Before an injector can be
built, the composition records of a component have to be flattened:

* lazily installed sub-components are expanded depth first on an explicit
  stack;
* duplicate bindings of a type are collapsed, or rejected when they
  disagree;
* multibinding elements are paired with their vector creators;
* where possible, an interface binding `I -> C` is compressed so that `C`
  is built straight into `I`'s slot.

The `NormalizedComponentStorage` constructor then sorts the flattened
bindings, removes duplicates, groups the multibindings per type and totals
the storage the injector will need.

This project models that core as pure Dafny functions and methods over
immutable data, and proves what it promises.

| module | file | what it models |
|---|---|---|
| `Entries` | `entries.dfy` | the composition records (`ComponentStorageEntry` kinds), the binding-consistency test, the allocator's per-type counters |
| `StackShape` | `stack_shape.dfy` | the shape of the expansion stack: multibinding / vector-creator pairs, and the end markers of components being expanded |
| `Expander` | `expander.dfy` | `normalizeBindingsHelper`'s loop: one iteration (`Step`), the loop (`Run`), the lifecycle invariant |
| `Installation` | `installation.dfy` | `normalizeBindingsHelper` against the installation graph: the reachable components, the installed records, what the result holds and the evidence behind each error |
| `ExpanderFrame` | `expander_frame.dfy` | frame reasoning about the loop, and why installing a component twice equals installing it once |
| `Compressor` | `compressor.dfy` | `performBindingCompression`: the three passes that disqualify hints, the rewrite with undo records, and the reverse of the rewrite |
| `Multibindings` | `multibindings.dfy` | `addMultibindings` |
| `Normalization` | `normalization.dfy` | `normalizeBindings` and `normalizeBindingsWithoutBindingCompression` |
| `ComponentStorage` | `component_storage.dfy` | the `NormalizedComponentStorage(BindingVectors&&)` constructor |
| `Sums` | `sums.dfy` | sums over finite sets, independent of the order the elements are visited |

## How the source is represented

* **Identities are integers.** Type ids, functions, `create` pointers and
  object pointers only need equality, so they are `int`. The order on type
  ids is the order `std::sort` uses.
* **Lazy components' `addBindings` is a table.** It maps each component
  (`ModuleId`, with or without arguments) to the records it pushes, in push
  order. `ValidTable` states what the loop relies on: the records arrive in
  intact multibinding pairs, with no end markers, and name only components
  the table knows.
* **Fatal errors are results.** The source prints a message and calls
  `exit(1)`. The model returns an `Err` value:
  - `InconsistentBinding(t)` when a type is bound twice inconsistently;
  - `InstallLoop(toplevel, trace, repeated)` for an installation loop. The
    `trace` lists the components whose end markers are on the stack, bottom
    first; the source prints exactly these.
  - `MultipleBindings(t)` when the storage constructor finds two different
    bindings for one type.
* **`FruitAssert`s become preconditions or are discharged.** The pairing
  asserts at `src/binding_normalization.cpp:222-225` and `233-241` follow
  from the invariant `Paired`, which every step keeps. The asserts at
  `340-341` (nothing left in progress) are proved as a postcondition of
  `Run`. The kind asserts of the compression loop (481-490) are part of
  `Compressor.Ready`.
* **Hash-map iteration order is arbitrary.** Loops over `HashMap`s and
  `unordered_map`s pick their next key through `Entries.Pick`, which promises
  only that the key is in the set. Every postcondition therefore holds for
  every iteration order.
* **The storage sizes are a parameter.** `InjectorStorage::maximumRequiredSpace`
  becomes `space: TypeId -> nat`. The sort's result is passed in, described
  by a permutation and a sortedness precondition.
* **Binding data are generic.** `BindingData` and the per-element part of
  `MultibindingData` are the type parameters `D` and `E` of the storage
  module; the constructor only compares and copies them.

## Model

| member | source | states |
|---|---|---|
| Expander.BindingStep | src/binding_normalization.cpp:150-207 | Popping a binding succeeds exactly when its type is unbound or the stored binding is consistent with it; the error names the type. The first binding of a type is stored, later ones never replace it. The allocator is told once per occurrence, duplicate or not: its own storage for a binding that needs allocation, external for one that does not. Nothing else changes. |
| Expander.StepKeepsInv | src/binding_normalization.cpp:135-144 | Every successful step keeps the lifecycle invariant: the components in progress are exactly those whose end markers are on the stack; each marker appears once; nothing in progress is also fully expanded; multibinding pairs are intact; every binding is filed under its own type. Every step also makes progress: either fewer components are left unstarted, or the same number with a shorter stack. |
| Expander.StepGrows | src/binding_normalization.cpp:146-338 | No step forgets a component it has seen, drops a collected multibinding pair, or changes a stored binding. |
| Expander.StepLoopTrace | src/binding_normalization.cpp:276-282 | An installation-loop error names a component that occurs in its trace, and no component occurs in the trace twice. |
| Expander.Run | src/binding_normalization.cpp:146-341 | The loop always terminates. On success the stack is empty, nothing is left in progress, the lifecycle invariant still holds, and every component that was in progress or fully expanded when the loop started is fully expanded. Every binding and multibinding pair collected before is kept. An installation loop carries a trace that contains the repeated component, each component once. |
| Installation.ReachableClosed | src/binding_normalization.cpp:268-298 | The reachable components include every lazy component the top level pushes and every lazy component pushed by the `addBindings` of a reachable component. |
| Installation.ReachableLeast | src/binding_normalization.cpp:268-298 | Any set of components closed in that way contains every reachable component, so the reachable components form the least such set. |
| Installation.StepTracks | src/binding_normalization.cpp:146-338 | One iteration keeps the installation invariant. Each record on the stack was pushed by the top level, or by the component whose end marker lies nearest beneath it. The end markers form a chain of installations from the top level. Every started component is reachable, and every lazy component pushed so far is on the stack or started. Stored bindings, hints and pairs come from pushed records. Every popped binding is stored under its type, consistently, and every popped hint is stored under its C. Per type and allocation mode, the allocator counts plus the requests still on the stack equal the requests pushed so far; pairs are counted the same way. An inconsistent binding comes with two pushed bindings of the type that disagree. An installation loop comes with the chain of end markers, whose last component pushes the repeated one. |
| Installation.RunTracks | src/binding_normalization.cpp:146-341 | The whole loop keeps the same invariant to its end and backs its errors with the same evidence. |
| Installation.FinishTracks | src/binding_normalization.cpp:146-341 | When the loop ends with an empty stack and nothing in progress, the fully expanded components are exactly the reachable ones. |
| Installation.NormalizeBindingsHelper | src/binding_normalization.cpp:118-342 | Started from the top-level records with empty maps. On success the fully expanded components are exactly those reachable from the top level. The binding map has a key for exactly the types of the installed bindings, meaning those pushed by the top level or by a reachable component. Each stored binding is installed and consistent with every installed binding of its type. Every stored hint and both halves of every pair are installed records, and every installed hint's C has a stored hint. Counted with multiplicity, the collected pairs are exactly the units installed by the top level and by each reachable component once: every element paired with the vector creator pushed next to it. So there is one pair per installed multibinding element. Per type and allocation mode, the allocator counter grows by the number of installed bindings still to be constructed, each reachable component's records counted once. An inconsistent-binding error names a type with two installed bindings that disagree. An installation-loop error carries a chain of installations from the top level, each entry pushed by the one before; its last component pushes the repeated one, which lies on the chain, and no component occurs twice. |
| Installation.UnitsAfterPop | src/binding_normalization.cpp:217-244 | Popping a multibinding element together with its adjacent vector creator, whichever is on top, moves exactly the pair they form from the stack to the collected pairs. Any other pop leaves both the stack's pairs and the collected pairs unchanged. |
| Installation.ReinstallAtTop | src/binding_normalization.cpp:268-274 | If the top level installs an already reachable component once more, nothing new is reachable. The installed records other than lazy components stay the same, and so does every count of installed records and pairs. |
| Installation.ReinstallInside | src/binding_normalization.cpp:268-274 | The same holds when any reachable component installs an already reachable component once more, anywhere in the installation graph. |
| Installation.LoopIsCycle | src/binding_normalization.cpp:276-282 | The chain behind an installation loop yields a cycle of installations through the repeated component, and that component is reachable. |
| Installation.OkMeansAgreement | src/binding_normalization.cpp:150-207 | After a success, any two installed bindings of one type are consistent, so no type is bound inconsistently. |
| Installation.WellFormedSucceeds | src/binding_normalization.cpp:118-342 | If no type has two installed bindings that disagree, and no reachable component lies on a cycle of installations, the expansion succeeds. |
| ExpanderFrame.RunAboveFrame | src/binding_normalization.cpp:143-144 | The records on top of the stack are processed to the same outcome, the same error or the same final state, whatever lies beneath them, provided the two stacks beneath carry the same end markers. |
| ExpanderFrame.RunAboveExpands | src/binding_normalization.cpp:246-298 | Once the loop has worked through a lazy component, that component is fully expanded. |
| ExpanderFrame.InstallTwiceIsIdempotent | src/binding_normalization.cpp:268-274 | Installing the same lazy component twice in a row gives exactly the outcome of installing it once. |
| Compressor.SurvivorsIff | src/binding_normalization.cpp:421-467 | A compression candidate C survives exactly when all of these hold: no multibinding element still to be constructed depends on it; it is not exposed; every bound type still to be constructed that depends on it is its own I. A surviving hint is unchanged. |
| Compressor.MultibindingDepsIff | src/binding_normalization.cpp:421-437 | A type is struck out by the multibinding pass exactly when some multibinding element still to be constructed lists it as a dependency. |
| Compressor.SelectSurvivors | src/binding_normalization.cpp:421-467 | The three passes, run in source order over arbitrary iteration orders, leave exactly the survivors. |
| Compressor.Compress | src/binding_normalization.cpp:472-501 | Applying the survivors one by one, in any order, gives the reference rewrite of the whole map and the reference undo table. |
| Compressor.CompressedBindingsMeaning | src/binding_normalization.cpp:476-501 | After the rewrite, every surviving C is gone. Every surviving I holds C's allocation mode and dependencies with the compressed `create`. Every other binding is untouched. |
| Compressor.UndoOneMore | src/binding_normalization.cpp:483-490 | Each applied hint adds one undo record, under its C: I's original construction data and C's construction data. |
| Compressor.CompressionRoundTrip | src/binding_normalization.cpp:483-497 | The undo records keep exactly what the rewrite destroyed. Undoing them gives back the original binding map, however many hints have been applied. |
| Compressor.BindingsVector | src/binding_normalization.cpp:503-507 | The result vector holds exactly the map's bindings, one per type, with as many entries as the map. |
| Compressor.PerformBindingCompression | src/binding_normalization.cpp:413-510 | The whole stage: the undo table is the one for the survivors, and the vector holds exactly the rewritten map's bindings, one per type. |
| Multibindings.AddPair | src/binding_normalization.cpp:529-562 | One pair appends its normalized element (object pointer, or `create` alone) to its type's set and overwrites the set's vector getter. It tells the allocator about an element still to be constructed, in that element's allocation mode. |
| Multibindings.AddMultibindings | src/binding_normalization.cpp:512-571 | Afterwards the types are the old ones plus those of the pairs. Each type's elements are its old ones followed by its pairs' elements, in pair order. Each type's getter is the one paired with its last element, or its old one. The allocator counts, per type, one request per element still to be constructed, in that element's mode. |
| Multibindings.ElemsForCount | src/binding_normalization.cpp:521-570 | A type receives exactly one element per pair of that type. |
| Multibindings.ElemsForMembers | src/binding_normalization.cpp:534-562 | An element belongs to a type's merged elements exactly when some pair of that type normalizes to it. |
| Multibindings.LastContribution | src/binding_normalization.cpp:531-532 | Finds the last pair contributing to a type: that pair is of the type and no later pair is; -1 when there is none. |
| Normalization.ByType | src/binding_normalization.cpp:405-410 | A vector with one binding per type reads back as a map keyed by type that has exactly the vector's types and bindings. |
| Normalization.NormalizeBindings | src/binding_normalization.cpp:344-382 | Fails exactly when the expansion fails, with the same error. On success the multibinding pairs and allocator counts are the expansion's, the vector has one binding per type and holds exactly the expansion's bindings with every surviving hint applied, the undo table is the one for the surviving hints, and undoing the compression on that vector gives back the expansion's binding map. |
| Normalization.NormalizeBindingsWithoutBindingCompression | src/binding_normalization.cpp:384-411 | Fails exactly when the expansion fails, with the same error. On success the vector holds exactly the expansion's binding map, one binding per type, and there are no undo records. |
| ComponentStorage.Deduplicate | src/normalized_component_storage.cpp:112-130 | For a vector sorted by type: succeeds exactly when no type has two different bindings. On failure it names the least such type. On success the result is strictly sorted by type and holds the same (type, binding) records as the input. |
| ComponentStorage.BindingsSize | src/normalized_component_storage.cpp:132-134 | The total adds each bound type's maximum size once. |
| ComponentStorage.GroupMultibindings | src/normalized_component_storage.cpp:139-152 | From a vector sorted by type: one entry per type present. The entry holds all of the type's records in vector order, and its getter is taken from the first record of the type. |
| ComponentStorage.RecordsOfCount | src/normalized_component_storage.cpp:148-151 | Counted with multiplicity, a type's grouped records are exactly its entries in the vector. |
| ComponentStorage.RecordsOfLength | src/normalized_component_storage.cpp:148-151 | A type has exactly as many grouped records as the vector has entries of that type. |
| ComponentStorage.SameRecords | src/normalized_component_storage.cpp:139 | Sorting does not change how many records a type has. |
| ComponentStorage.BuildMultibindingRegistry | src/normalized_component_storage.cpp:139-152 | Sorting and grouping give each type exactly its records from the unsorted input, with multiplicity, and a getter taken from one of them. |
| ComponentStorage.MultibindingsSize | src/normalized_component_storage.cpp:154-156 | The total adds, for each multibinding type, its maximum size times its number of elements. |
| Sums.SetSumRemove | src/normalized_component_storage.cpp:154-156 | A sum over a set does not depend on the order its elements are visited, which is what makes the totals independent of hash order. |
| ComponentStorage.NewStorage | src/normalized_component_storage.cpp:107-157 | The constructor fails exactly when some type has two different bindings, naming the least such type. On success the registry has one binding per bound type, in increasing type order, each equal to the input's. Each multibinding type holds exactly its input records. The total size is each bound type's size once plus each multibinding element's size. |

## Left out

- Diagnostics: the error texts, `printLazyComponentInstallationLoop`'s formatting and the `FRUIT_EXTRA_DEBUG` output are not modelled; errors are values instead of `exit(1)`.
- The `addBindings` of a lazy component is user code; it is a table from component to the records it pushes.
- `FixedSizeAllocatorData` is reduced to two per-type counters (own storage and externally allocated); how it sizes the arena is not part of this model.
- `HashMap`, `createLazyComponentWithNoArgsSet` and the other hash containers are Dafny maps and sets; hashing and iteration order are left out (iteration uses an arbitrary pick).
- `SemistaticGraph` construction from the deduplicated registry (`src/normalized_component_storage.cpp:136-137`) is not part of this model; the registry is kept as the sorted vector.
- `std::sort` is a library call: its result is a parameter described by a permutation and sortedness, and the order inside a run of equal types is left free, because the multibinding sort compares types only.
- Compressor.PerformBindingCompression: it requires `Ready` of the survivors. This covers the `FruitAssert`s of the rewrite loop, the source's unchecked remark (lines 469-470) that no C is also an I, and one assumption the source makes silently: no two surviving hints share an I. Without that assumption a later rewrite would overwrite an earlier one's I and the undo would be ambiguous.
- Normalization.NormalizeBindings: it carries the same `Ready` condition as `CompressionApplies`, a condition on the expansion's outcome, rather than deriving it from properties of the components.
- Entries.Consistent: like the source, it compares the kind plus the object pointer or the `create` function. Dependency lists are not compared.
- Multibindings.AddPair: a new set's getter starts from a placeholder and is always overwritten in the same iteration, so the default value is never observed.
- The in-place compaction of the binding vector (`firstFreePos`, `erase`) is modelled by building a new sequence with the same contents.
- The `Paired` stack shape is a precondition on the top-level records and on the table, standing for the guarantee that components always push a multibinding together with its vector creator.
- Installation.NormalizeBindingsHelper: for hints it states only that each stored hint comes from an installed record and that every installed hint's C has one. That the last hint popped for a C wins is stated per iteration (`Expander.CompressedStep`), not for the whole run.
- Installation.WellFormedSucceeds: only one direction of the error characterisation is proved for loops. A loop error implies a reachable cycle (`LoopIsCycle`), but the converse, that a reachable cycle always ends the run with an error, is not proved. It is the white-path argument of depth-first search over the installation graph, and it needs an ordering invariant on the stack that the model does not carry.
