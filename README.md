# Variable reconciliation and flow-graph flattening of a Java decompiler, in Dafny

This project models the core of a Java bytecode decompiler (Quiltflower, a Fernflower fork):

- **Variable definitions** (`VarDefinitionHelper`), working on one method's statement tree:
  - parameter slots are implicitly defined;
  - every slot gets one defining statement, found by counting slot uses bottom-up (`initStatement`);
  - one declaration per slot is placed (`findFirstBlock`, `setVarDefinitions`);
  - conflicting versions of a slot are merged, with a blacklist and a type check (`mergeVars`, `processExprent`, `remapVar`, `getMergedType`, `populateTypeBounds`, `isVarReadFirst`);
  - reassigned versions are marked not final (`setNonFinal`).
- **Flow-graph flattening** (`FlattenStatementsHelper`): the statement tree becomes a graph of direct nodes. Edges that leave a `finally`-protected body are routed through the handler. Edges are then resolved into mirrored successor and predecessor lists and de-duplicated finally paths.
- **Expression-tree utilities** (`Exprent`): descendants, containment, variable sets, the stable `sortIndexed` grouping, bytecode offsets and `findObject`.
- **Class hierarchy** (`StructContext`, `StructClass`): `instanceOf`, `getFirstCommonClass`, the superclass chain and its cache, recursive method lookup, version predicates, generic maps, the lazily reloaded constant pool, and the abstract-parameter-name metadata.
- **Constant pool** (`ConstantPool`): a class file's pool read from bytes, following section 4.4 of The Java Virtual Machine Specification (Java SE 17):
  - a Long or Double entry takes two slots;
  - entries are resolved in three passes;
  - `getConstant` / `getPrimitiveConstant` read entries back;
  - `buildNewClassname` renames a class, keeping its array dimension.
- **Class-file versions** (`BytecodeVersion`): 16/16-bit packing, comparison and feature thresholds (section 4.1 of the same specification).
- **`ListStack`**: an in-place stack over a list.

## How the model is built

Each Java file becomes one module:

| Java file | module | file |
|---|---|---|
| `BytecodeVersion` | `BytecodeVersion` | `bytecode_version.dfy` |
| `ListStack` | `ListStacks` | `list_stack.dfy` |
| `ConstantPool` | `ConstantPool` | `constant_pool.dfy` |
| `StructClass` | `StructClasses` | `struct_class.dfy` |
| `StructContext` | `StructContexts` | `struct_context.dfy` |
| `Exprent` | `Exprents` | `exprent.dfy` |
| `FlattenStatementsHelper` | `FlattenNames` (node names) and `FlattenStatements` | `flatten_names.dfy`, `flatten.dfy` |

`VarDefinitionHelper` is split by pass:

| module | pass |
|---|---|
| `VarInit` and `VarInitPass` | parameters, catch variables, `initStatement` |
| `VarFirstBlock` | `findFirstBlock` |
| `VarDeclare` | `setVarDefinitions` |
| `VarTypes` | `getMergedType`, `populateTypeBounds` |
| `VarMerge` | `mergeVars`, `processExprent`, `isVarReadFirst` |
| `VarRemap` | `remapVar` |
| `VarFinal` | `setNonFinal` |
| `VarDefinition` | the `VarDefinitionHelper` object that drives the passes |

`Statements` (`statement.dfy`) holds the statement tree and `Wrappers` (`wrappers.dfy`) holds `Option`, `Result` and `Outcome`.

### Data

- **Expressions** are a datatype:
  - variables carry their slot, version, definition flag and type;
  - assignments, invocations, field accesses, exits, functions and constants;
  - other nodes hold only their children.
- **Statements** are a datatype: an id, children `stats`, an optional expression list, `varDefs`, successor edges, and a `Kind` carrying the kind-specific expressions.
- **Statement identity.** A statement is identified by its path from the root. Edits in place become `UpdateAt(root, path, t)`. `SameShape` proves that every recorded path survives each edit.

### The source's own form, kept

Where the source mutates objects, the model does too:

| source | model |
|---|---|
| `VarDefinitionHelper`, `FlattenStatementsHelper`, `DirectGraph`, `StructClass`, `StructContext`, `ConstantPool`, `ListStack`, the `bytecode` field of an `Exprent` | classes whose methods modify their fields |
| the pool | an `array` |
| loops | `while` loops, each proved equal to a specification function that mirrors the loop |

Recursive Java methods are functions with lemmas about them.

### Where the code wins

Where the code and its comments disagree, the model follows the code:

- **`isVarReadFirst` is inverted between the two places that call it.** A compound statement stops merging when the variable is read first (VarDefinitionHelper.java:619). A basic block stops merging when it is *not* (VarDefinitionHelper.java:629). `MergeObjs` and `MergeLeaf` keep both tests as written.
- **Detecting a conflict removes the definition.** A conflict among a statement's definitions removes that definition from `getVarDefinitions()` as a side effect (VarDefinitionHelper.java:544). `MergeDefs` returns the tree with the definition dropped, and `MergeDefsClash` states it.
- **`getFirstCommonClass(x, x)` is never `x`.** It searches `second`'s `getAllSuperClasses()`, which never includes `second` itself. `FirstCommonOfSelf` states this.
- **`hasSealedClasses` is not monotone.** The Java 15 preview version has sealed classes; the later, non-preview Java 16 version does not. `SealedClassesAreNotMonotone` states this.
## Model

| member | source | states |
|---|---|---|
| BytecodeVersion.Make | src/org/jetbrains/java/decompiler/code/BytecodeVersion.java:7-10 | the constructor keeps the low 16 bits of major and minor: both parts land in [0, 65536), each congruent to its argument, and values already in range are kept |
| BytecodeVersion.ToInt | src/org/jetbrains/java/decompiler/code/BytecodeVersion.java:12-14 | `toInt` is negative exactly when the major reaches the sign bit (32768 or more), and is the 32-bit pattern of major times 65536 plus minor |
| BytecodeVersion.FromInt | src/org/jetbrains/java/decompiler/code/BytecodeVersion.java:56-58 | `fromInt` always yields a valid version whose minor is the low 16 bits of the argument; a non-negative argument splits into its high and low halves, and a negative one yields a major of 32768 or more |
| BytecodeVersion.HashCode | src/org/jetbrains/java/decompiler/code/BytecodeVersion.java:51-54 | the hash code determines the version: `fromInt(hashCode())` gives it back |
| BytecodeVersion.HasEnums | src/org/jetbrains/java/decompiler/code/BytecodeVersion.java:16-18 | a valid version has enums exactly when it compares at or above 49.0 |
| BytecodeVersion.HasInvokeDynamic | src/org/jetbrains/java/decompiler/code/BytecodeVersion.java:20-22 | a valid version has invokedynamic exactly when it compares at or above 51.0 |
| BytecodeVersion.HasLambdas | src/org/jetbrains/java/decompiler/code/BytecodeVersion.java:24-26 | a valid version has lambdas exactly when it compares at or above 52.0 |
| BytecodeVersion.HasIndyStringConcat | src/org/jetbrains/java/decompiler/code/BytecodeVersion.java:28-30 | a valid version has indy string concatenation exactly when it compares at or above 53.0 |
| BytecodeVersion.HasSealedClasses | src/org/jetbrains/java/decompiler/code/BytecodeVersion.java:32-34 | a valid version has sealed classes exactly when it compares at or above 61.0 or is the preview version of 59 or 60 |
| BytecodeVersion.Equals | src/org/jetbrains/java/decompiler/code/BytecodeVersion.java:43-49 | `equals` holds exactly for the same version |
| BytecodeVersion.CompareInt | src/org/jetbrains/java/decompiler/code/BytecodeVersion.java:36-41 | `Integer.compare` answers -1, 0 or 1, zero exactly on equality and negative exactly when the first is smaller |
| BytecodeVersion.Compare | src/org/jetbrains/java/decompiler/code/BytecodeVersion.java:36-41 | `compareTo` answers -1, 0 or 1, zero exactly for equal versions, negative exactly when the major is smaller or the majors tie and the minor is smaller |
| BytecodeVersion.FromIntToInt | src/org/jetbrains/java/decompiler/code/BytecodeVersion.java:12-14 | `fromInt(v.toInt())` gives back every version |
| BytecodeVersion.ToIntFromInt | src/org/jetbrains/java/decompiler/code/BytecodeVersion.java:56-58 | every 32-bit `int` is the packing of the version `fromInt` decodes it to, so the packing loses nothing |
| BytecodeVersion.HashCodeMatchesEquals | src/org/jetbrains/java/decompiler/code/BytecodeVersion.java:43-54 | `hashCode` (which is `toInt`) agrees with `equals`: equal versions hash equally and distinct versions hash apart |
| BytecodeVersion.CompareIsTotalOrder | src/org/jetbrains/java/decompiler/code/BytecodeVersion.java:36-49 | `compareTo` is zero exactly when `equals` holds, is antisymmetric and is transitive |
| BytecodeVersion.ToIntOrdersLikeCompare | src/org/jetbrains/java/decompiler/code/BytecodeVersion.java:12-14 | for majors below 32768 the signed packed value orders versions the way `compareTo` does |
| BytecodeVersion.FeaturesAreCumulative | src/org/jetbrains/java/decompiler/code/BytecodeVersion.java:16-30 | each feature test implies the earlier ones: sealed classes, then indy string concat, then lambdas, then invokedynamic, then enums |
| BytecodeVersion.FeaturesAreMonotone | src/org/jetbrains/java/decompiler/code/BytecodeVersion.java:16-30 | every feature test except sealed classes holds for all versions that compare above a version that has it |
| BytecodeVersion.SealedClassesAreNotMonotone | src/org/jetbrains/java/decompiler/code/BytecodeVersion.java:32-34 | the Java 15 preview version has sealed classes and the later Java 16 version does not |
| BytecodeVersion.ConstantsDecode | src/org/jetbrains/java/decompiler/code/BytecodeVersion.java:60-100 | each `VERSION_n` decodes to major n and minor 0; each `VERSION_n_PREVIEW` decodes to minor `PREVIEW` and equals the packing of (n, 65535) |
| ListStacks.ListStack.constructor | src/org/jetbrains/java/decompiler/util/ListStack.java:9-11 | a new stack is empty |
| ListStacks.ListStack.FromList | src/org/jetbrains/java/decompiler/util/ListStack.java:13-15 | the stack built from a list holds that list, bottom first |
| ListStacks.ListStack.Clone | src/org/jetbrains/java/decompiler/util/ListStack.java:17-21 | the clone is a fresh stack with the same elements |
| ListStacks.CloneIsIndependent | src/org/jetbrains/java/decompiler/util/ListStack.java:17-21 | pushing on a clone leaves the original unchanged |
| ListStacks.ListStack.Push | src/org/jetbrains/java/decompiler/util/ListStack.java:23-25 | the item is appended at the top and nothing else changes |
| ListStacks.ListStack.Pop | src/org/jetbrains/java/decompiler/util/ListStack.java:27-29 | on a non-empty stack the top comes back and the rest stays; an empty stack fails |
| ListStacks.PushThenPop | src/org/jetbrains/java/decompiler/util/ListStack.java:23-29 | a push followed by a pop returns the pushed item and restores the list |
| ListStacks.ListStack.PopCount | src/org/jetbrains/java/decompiler/util/ListStack.java:31-37 | `count <= 0` returns null and changes nothing; otherwise the last `count` elements are removed and the deepest of them is returned; with too few elements the stack is emptied and the call fails |
| ListStacks.ListStack.RemoveMultiple | src/org/jetbrains/java/decompiler/util/ListStack.java:39-41 | the list ends up exactly as after `pop(count)`, in every case |
| ListStacks.ListStack.GetByOffset | src/org/jetbrains/java/decompiler/util/ListStack.java:43-45 | returns the element at `size + offset` (so -1 is the top) and fails outside the list |
| ListStacks.ListStack.InsertByOffset | src/org/jetbrains/java/decompiler/util/ListStack.java:47-49 | puts the item at `size + offset` with the others in order; an index outside `0..size` fails and changes nothing |
| ListStacks.InsertAtZeroPushes | src/org/jetbrains/java/decompiler/util/ListStack.java:47-49 | `insertByOffset(0, x)` has the effect of `push(x)` |
| ConstantPool.BigEndianRoundTrip | src/org/jetbrains/java/decompiler/struct/consts/ConstantPool.java:53-61 | a value below 256^n is read back unchanged from its n big-endian bytes |
| ConstantPool.SignedRoundTrip | src/org/jetbrains/java/decompiler/struct/consts/ConstantPool.java:53-61 | a signed n-byte value is read back unchanged from its two's-complement bytes |
| ConstantPool.Bytes | src/org/jetbrains/java/decompiler/struct/consts/ConstantPool.java:37-97 | reading n bytes succeeds exactly when they are there, and returns them |
| ConstantPool.ReadEntry | src/org/jetbrains/java/decompiler/struct/consts/ConstantPool.java:37-97 | a successful read ends after its start and within the data; an invalid-entry error carries the entry's index and its tag byte read as signed |
| ConstantPool.EncodeEntry | src/org/jetbrains/java/decompiler/struct/consts/ConstantPool.java:37-97 | a class-file writer's encoding of an entry starts with the entry's tag |
| ConstantPool.ReadEncodedEntry | src/org/jetbrains/java/decompiler/struct/consts/ConstantPool.java:37-97 | reading the encoding of any encodable entry gives the entry back and stops right after it, whatever bytes surround it |
| ConstantPool.ReadEncodedLink | src/org/jetbrains/java/decompiler/struct/consts/ConstantPool.java:73-90 | a link constant reads back: a MethodHandle reads a 1-byte kind then a 2-byte index; other link constants read two 2-byte indices |
| ConstantPool.ReadEncodedUtf8 | src/org/jetbrains/java/decompiler/struct/consts/ConstantPool.java:37-97 | a UTF-8 entry reads back with its 2-byte length and its payload |
| ConstantPool.ReadEncodedNumber | src/org/jetbrains/java/decompiler/struct/consts/ConstantPool.java:53-61 | an Integer or Long entry reads back with its 4- or 8-byte big-endian value |
| ConstantPool.ReadEncodedRaw | src/org/jetbrains/java/decompiler/struct/consts/ConstantPool.java:37-97 | a Float or Double entry (kept as its raw bits) or an index-valued entry (Class, String, MethodType, Module, Package) reads back |
| ConstantPool.UnknownTagIsRejected | src/org/jetbrains/java/decompiler/struct/consts/ConstantPool.java:94-95 | a tag outside the known ones is rejected with the entry's index and the signed tag byte |
| ConstantPool.ReadEntriesKeepsShape | src/org/jetbrains/java/decompiler/struct/consts/ConstantPool.java:37-97 | reading keeps the slot count, never fills slot 0, fills every slot from the start on except the one after a Long or Double (which stays empty), and queues each entry whose tag has a pass in that pass and in no other |
| ConstantPool.WellFilledStep | src/org/jetbrains/java/decompiler/struct/consts/ConstantPool.java:37-97 | one loop step (reading entry i, skipping a slot after a Long or Double) keeps the reading invariant: filled slots, empty second halves, coverage and complete passes |
| ConstantPool.AddToPassCompletes | src/org/jetbrains/java/decompiler/struct/consts/ConstantPool.java:63-92 | after queuing the entry read at slot i, every filled slot read so far whose tag has a pass is in that pass |
| ConstantPool.CoveredStep | src/org/jetbrains/java/decompiler/struct/consts/ConstantPool.java:53-61 | after reading slot i (and skipping the next slot for a Long or Double), every slot read so far is filled unless it follows a Long or Double |
| ConstantPool.PoolImageShape | src/org/jetbrains/java/decompiler/struct/consts/ConstantPool.java:26-97 | the pool read from bytes has `count` slots; slot 0 is empty; a slot from 1 on is filled exactly when the slot before it is not a Long or Double; each pass holds exactly the filled slots whose tag belongs to it |
| ConstantPool.AddToPassKeeps | src/org/jetbrains/java/decompiler/struct/consts/ConstantPool.java:63-92 | queuing a newly read entry into the pass its tag selects (pass 0: Class, String, MethodType, Module, Package, NameAndType; pass 1: field, method and interface-method refs and InvokeDynamic; pass 2: MethodHandle) keeps every pass holding only filled slots of its own tags |
| ConstantPool.OrderNamesFilledSlots | src/org/jetbrains/java/decompiler/struct/consts/ConstantPool.java:99-104 | every index the resolution passes name is a filled slot of the pool, and every filled slot whose tag has a pass is named, so every such entry is resolved |
| ConstantPool.ReadEntriesPassesAscending | src/org/jetbrains/java/decompiler/struct/consts/ConstantPool.java:37-97 | each pass lists its indices in increasing order, so no entry is resolved twice |
| ConstantPool.ResolveAll | src/org/jetbrains/java/decompiler/struct/consts/ConstantPool.java:99-104 | resolution either keeps the pool's length, which slots are filled, and every slot outside the order, or fails with the index, taken from the order, of the first entry whose `resolveConstant` threw |
| ConstantPool.ResolveAllSucceeds | src/org/jetbrains/java/decompiler/struct/consts/ConstantPool.java:99-104 | with a `resolveConstant` that never throws, resolution succeeds |
| ConstantPool.ResolutionOrderRespectsPasses | src/org/jetbrains/java/decompiler/struct/consts/ConstantPool.java:99-104 | every pass-0 entry is resolved before any pass-1 entry, and every pass-1 entry before any pass-2 entry |
| ConstantPool.PassIndexAt | src/org/jetbrains/java/decompiler/struct/consts/ConstantPool.java:99-104 | each resolution step belongs to one of the three passes and resolves an index of that pass |
| ConstantPool.ReadPool | src/org/jetbrains/java/decompiler/struct/consts/ConstantPool.java:26-108 | the constructor fails with the parse error when the bytes do not parse; otherwise it fails only when some `resolveConstant` throws, naming an index from the passes, and a successful pool has one slot per parsed slot |
| ConstantPool.ReadPoolParsesOnly | src/org/jetbrains/java/decompiler/struct/consts/ConstantPool.java:26-108 | with a `resolveConstant` that never throws, the constructor succeeds exactly when the bytes parse |
| ConstantPool.ReadSlots | src/org/jetbrains/java/decompiler/struct/consts/ConstantPool.java:37-97 | the reading loop fails with exactly the error of the byte-level parse, or fills a fresh array with the parsed slots and returns the parsed passes |
| ConstantPool.ResolvePasses | src/org/jetbrains/java/decompiler/struct/consts/ConstantPool.java:99-104 | the three passes succeed exactly when the constructor's specification does, leaving the array equal to its resolved pool; on failure they report exactly its error |
| ConstantPool.ResolveInPlace | src/org/jetbrains/java/decompiler/struct/consts/ConstantPool.java:99-104 | resolving in place, entry by entry in the given order, either leaves the array equal to `ResolveAll` of its old contents or stops at the first throwing entry with exactly `ResolveAll`'s error |
| ConstantPool.NewConstantPool | src/org/jetbrains/java/decompiler/struct/consts/ConstantPool.java:26-108 | the constructor fails exactly when its specification does, with the same error (a parse error or a throwing `resolveConstant`), or builds a fresh pool array holding the parsed and resolved entries, with the given interceptor |
| ConstantPool.ConstantPool.Of | src/org/jetbrains/java/decompiler/struct/consts/ConstantPool.java:26-108 | the object holds the given array and interceptor |
| ConstantPool.ConstantPool.GetConstant | src/org/jetbrains/java/decompiler/struct/consts/ConstantPool.java:134-136 | `pool[index]` inside the array; an index outside it fails |
| ConstantPool.ConstantPool.GetPrimitiveConstant | src/org/jetbrains/java/decompiler/struct/consts/ConstantPool.java:138-151 | a link constant or a bad index fails; with no interceptor the entry comes back unchanged; a renamed Class entry gets the interceptor's new name and other entries are unchanged |
| ConstantPool.Brackets | src/org/jetbrains/java/decompiler/struct/consts/ConstantPool.java:176-198 | `n` copies of `[` |
| ConstantPool.ArrayDim | src/org/jetbrains/java/decompiler/struct/consts/ConstantPool.java:176-198 | the array dimension is the number of leading `[`, and the next character is not `[` |
| ConstantPool.BuildNewClassname | src/org/jetbrains/java/decompiler/struct/consts/ConstantPool.java:176-198 | null exactly when the element class is not renamed; a plain class gets its new name; an array becomes `[` repeated dimension times, then `L`, the new name and `;` |
| ConstantPool.RenameArrayClass | src/org/jetbrains/java/decompiler/struct/consts/ConstantPool.java:176-198 | renaming the element of an array descriptor keeps the descriptor's dimension and form |
| ConstantPool.LeadingBrackets | src/org/jetbrains/java/decompiler/struct/consts/ConstantPool.java:176-198 | a name built from `dim` brackets has array dimension `dim` |
| StructClasses.StructClass.Create | src/org/jetbrains/java/decompiler/struct/StructClass.java:54-92 | the class keeps its pool only when no loader can reload it, and starts with no cached superclasses |
| StructClasses.StructClass.ReleaseResources | src/org/jetbrains/java/decompiler/struct/StructClass.java:209-213 | the pool is dropped only when a loader exists; the cache is kept |
| StructClasses.StructClass.GetPool | src/org/jetbrains/java/decompiler/struct/StructClass.java:215-220 | a held pool is returned; a released one is reloaded through the loader and kept; with no loader the answer is null |
| StructClasses.StructClass.GetAllSuperClasses | src/org/jetbrains/java/decompiler/struct/StructClass.java:367-389 | returns the cached list if there is one; otherwise the chain of loaded superclasses, which is then cached |
| StructClasses.WalkSuperClasses | src/org/jetbrains/java/decompiler/struct/StructClass.java:376-385 | the walk from a loaded superclass collects exactly the chain of loaded superclasses, nearest first, stopping at a class with no superclass or an unloaded one |
| StructClasses.SuperChain | src/org/jetbrains/java/decompiler/struct/StructClass.java:367-389 | the chain is empty for a missing or unloaded start, starts with the loaded start class, and holds only loaded classes |
| StructClasses.SuperChainBelow | src/org/jetbrains/java/decompiler/struct/StructClass.java:367-389 | every class on the chain sits lower in the acyclic hierarchy than the class it started from |
| StructClasses.SuperClassesExcludeSelf | src/org/jetbrains/java/decompiler/struct/StructClass.java:367-389 | `getAllSuperClasses` never lists the class itself |
| StructClasses.SuperChainLinks | src/org/jetbrains/java/decompiler/struct/StructClass.java:367-389 | each listed class's successor is its own loaded superclass, and the chain stops at a class with no loaded superclass |
| StructClasses.ParentIsLower | src/org/jetbrains/java/decompiler/struct/StructClass.java:176-203 | every step from a class to a parent it names goes down the acyclic hierarchy, so the recursive walks end |
| StructClasses.HasFieldMeansKeyed | src/org/jetbrains/java/decompiler/struct/StructClass.java:160-166 | `hasField(n, d)` holds exactly when the key built from `n` and `d` is a field, and then `getField` returns that field |
| StructClasses.MethodRecursiveFindsDeclared | src/org/jetbrains/java/decompiler/struct/StructClass.java:176-203 | a method is found exactly when some class up the loaded hierarchy declares it; the class's own method comes first |
| StructClasses.MethodRecursiveFoundIsDeclared | src/org/jetbrains/java/decompiler/struct/StructClass.java:176-203 | what `getMethodRecursive` finds is the very method declared under that name and descriptor by the class or by a class up its loaded hierarchy |
| StructClasses.InterfacesFindDeclared | src/org/jetbrains/java/decompiler/struct/StructClass.java:193-201 | the interface loop finds a method exactly when some loaded interface from that one on, or a class above it, declares it |
| StructClasses.InterfacesFoundAreDeclared | src/org/jetbrains/java/decompiler/struct/StructClass.java:193-201 | a method the interface loop finds is the one declared under that key by some loaded interface from that one on, or by a class above it |
| StructClasses.EffectiveBytecodeVersion | src/org/jetbrains/java/decompiler/struct/StructClass.java:58 | the version handed to the readers is the major version, raised to Java 1.4's major when below it |
| StructClasses.Version8IsVersion5 | src/org/jetbrains/java/decompiler/struct/StructClass.java:251-258 | `isVersion8` implies `isVersion5`, and `isVersion5` holds exactly past 48, or at 48 with a non-zero minor |
| StructClasses.GetGenericMap | src/org/jetbrains/java/decompiler/struct/StructClass.java:269-286 | empty without a signature, without a generic type, or when the argument count differs from the formal parameters; otherwise each formal parameter with a non-null argument maps to it |
| StructContexts.AnyInterfaceIsExists | src/org/jetbrains/java/decompiler/struct/StructContext.java:196-209 | the interface loop of `instanceOf` holds exactly when some interface from that one on is an instance of the target |
| StructContexts.InstanceOfCharacterised | src/org/jetbrains/java/decompiler/struct/StructContext.java:186-210 | `instanceOf` is reflexive, false for an unknown value class with a different name, and otherwise holds exactly when the superclass or an interface is an instance of the target |
| StructContexts.InstanceOfTransitive | src/org/jetbrains/java/decompiler/struct/StructContext.java:186-210 | `instanceOf` is transitive |
| StructContexts.InstanceOfSuperChain | src/org/jetbrains/java/decompiler/struct/StructContext.java:186-210 | a class is an instance of every class on its superclass chain |
| StructContexts.FirstIn | src/org/jetbrains/java/decompiler/struct/StructContext.java:212-228 | the first class of a chain that is in a list is in the list, with no earlier class of the chain in it; nothing is found only when no class of the chain is in it |
| StructContexts.FirstCommonIsCommonSupertype | src/org/jetbrains/java/decompiler/struct/StructContext.java:212-228 | the class `getFirstCommonClass` finds is one both `first` and `second` are instances of, and is not `second` itself |
| StructContexts.FirstCommonOfSelf | src/org/jetbrains/java/decompiler/struct/StructContext.java:212-228 | `getFirstCommonClass(x, x)` is never `x` itself |
| StructContexts.StructContext.constructor | src/org/jetbrains/java/decompiler/struct/StructContext.java:29-30 | the context holds the given acyclic class table, with no cached superclass lists, and no abstract-parameter metadata |
| StructContexts.StructContext.GetClass | src/org/jetbrains/java/decompiler/struct/StructContext.java:41-43 | a class comes back exactly for a name in the table, and it is the class of that name |
| StructContexts.StructContext.GetFirstCommonClass | src/org/jetbrains/java/decompiler/struct/StructContext.java:212-228 | null when either class is unknown; otherwise the first class on `first`'s chain, `first` included, that is in `second`'s cached superclasses; only the caches change |
| StructContexts.Pieces | src/org/jetbrains/java/decompiler/struct/StructContext.java:230-243 | a split gives at least one piece |
| StructContexts.PiecesJoin | src/org/jetbrains/java/decompiler/struct/StructContext.java:230-243 | joining the pieces with the separator gives the text back, and no piece holds the separator |
| StructContexts.DropTrailingEmpty | src/org/jetbrains/java/decompiler/struct/StructContext.java:230-243 | dropping trailing empties keeps a prefix that does not end in an empty string and removes only empty strings |
| StructContexts.SplitWithoutSeparator | src/org/jetbrains/java/decompiler/struct/StructContext.java:230-243 | a text without the separator splits into itself |
| StructContexts.SplitIsPrefixOfPieces | src/org/jetbrains/java/decompiler/struct/StructContext.java:230-243 | `String.split` keeps a prefix of the pieces, none holding the separator, and cuts only empty ones |
| StructContexts.Repeat | src/org/jetbrains/java/decompiler/struct/StructContext.java:230-243 | `n` copies of a name |
| StructContexts.SlotNamesCoverParameters | src/org/jetbrains/java/decompiler/struct/StructContext.java:230-243 | each parameter's name fills exactly the slots from its offset for its stack size, and the names fill all the slots |
| StructContexts.SlotNamesLength | src/org/jetbrains/java/decompiler/struct/StructContext.java:230-243 | the slot names are as many as the parameters' stack sizes add up to |
| StructContexts.OffsetMonotone | src/org/jetbrains/java/decompiler/struct/StructContext.java:230-243 | a later parameter starts at a slot no lower than an earlier one |
| StructContexts.ShortLineIgnored | src/org/jetbrains/java/decompiler/struct/StructContext.java:230-243 | a line with fewer than four space-separated fields changes nothing |
| StructContexts.StructContext.LoadAbstractMetadata | src/org/jetbrains/java/decompiler/struct/StructContext.java:230-243 | the table afterwards, or the error, is the fold of the line rule over the text's lines |
| StructContexts.CollectSlotNames | src/org/jetbrains/java/decompiler/struct/StructContext.java:230-243 | more names than parameters fail; otherwise each name is repeated for its parameter's stack size |
| StructContexts.StructContext.RenameAbstractParameter | src/org/jetbrains/java/decompiler/struct/StructContext.java:245-248 | the filed name of an in-range slot; the default when no entry exists or the index is past its end; a failure only for a negative index |
| StructContexts.LoadedLineRenames | src/org/jetbrains/java/decompiler/struct/StructContext.java:230-248 | after one line `class method desc names...` is loaded, renaming any slot of a parameter gives that parameter's name, and a slot past the end gives the default |
| Exprents.Children | src/org/jetbrains/java/decompiler/modules/decompiler/exps/Exprent.java:95-103 | the children of a node are smaller than it, and a variable or constant has none |
| Exprents.GetAllExprents | src/org/jetbrains/java/decompiler/modules/decompiler/exps/Exprent.java:95-103 | without recursion the direct children; with it the children followed by all deeper descendants, each original child expanded once |
| Exprents.DescMembers | src/org/jetbrains/java/decompiler/modules/decompiler/exps/Exprent.java:95-103 | a node is a descendant exactly when it is a child or a descendant of a child |
| Exprents.DescFromMembers | src/org/jetbrains/java/decompiler/modules/decompiler/exps/Exprent.java:95-103 | the descendants collected from child `j` on are exactly those of children `j..` |
| Exprents.DescSmaller | src/org/jetbrains/java/decompiler/modules/decompiler/exps/Exprent.java:95-103 | every descendant is strictly smaller than the node |
| Exprents.DescLength | src/org/jetbrains/java/decompiler/modules/decompiler/exps/Exprent.java:95-103 | the recursive list is as long as the subtree below the node, so each node appears once |
| Exprents.DescFromLength | src/org/jetbrains/java/decompiler/modules/decompiler/exps/Exprent.java:95-103 | the descendants of children `j..`, plus those children, count the subtrees of those children |
| Exprents.ContainsIsSubtree | src/org/jetbrains/java/decompiler/modules/decompiler/exps/Exprent.java:82-93 | `containsExprent(x)` holds exactly when `x` is the node or one of its descendants |
| Exprents.ChildContainsIsSubtree | src/org/jetbrains/java/decompiler/modules/decompiler/exps/Exprent.java:82-93 | the child loop finds `x` exactly when a child below position `i` is `x` or has it below |
| Exprents.VarPairs | src/org/jetbrains/java/decompiler/modules/decompiler/exps/Exprent.java:105-116 | the pairs collected are exactly those of the variable nodes in the list |
| Exprents.GetAllVariables | src/org/jetbrains/java/decompiler/modules/decompiler/exps/Exprent.java:105-116 | the set is exactly the (index, version) pairs of the variable nodes in the subtree, the node included |
| Exprents.VarPairsAppend | src/org/jetbrains/java/decompiler/modules/decompiler/exps/Exprent.java:105-116 | collecting over two lists gives the union of the two sets |
| Exprents.VariablesOfChildren | src/org/jetbrains/java/decompiler/modules/decompiler/exps/Exprent.java:105-116 | a pair is in the subtree exactly when it is the node's own or a descendant's, so the order of collection does not matter |
| Exprents.Insert | src/org/jetbrains/java/decompiler/modules/decompiler/exps/Exprent.java:182-200 | inserting one definition gives a list one longer, all variables, all definitions if the input was |
| Exprents.StableSort | src/org/jetbrains/java/decompiler/modules/decompiler/exps/Exprent.java:182-200 | the sort keeps the length, and keeps all variables and all definitions |
| Exprents.InsertPermutes | src/org/jetbrains/java/decompiler/modules/decompiler/exps/Exprent.java:182-200 | inserting adds exactly the new element |
| Exprents.StableSortPermutes | src/org/jetbrains/java/decompiler/modules/decompiler/exps/Exprent.java:182-200 | the sort only reorders |
| Exprents.InsertSorted | src/org/jetbrains/java/decompiler/modules/decompiler/exps/Exprent.java:182-200 | inserting into a sorted list keeps it sorted by slot |
| Exprents.InsertKeepsSlots | src/org/jetbrains/java/decompiler/modules/decompiler/exps/Exprent.java:182-200 | the new element goes after every element of its slot already there |
| Exprents.StableSortSorted | src/org/jetbrains/java/decompiler/modules/decompiler/exps/Exprent.java:182-200 | the sort orders by slot |
| Exprents.StableSortIsStable | src/org/jetbrains/java/decompiler/modules/decompiler/exps/Exprent.java:182-200 | definitions of the same slot keep their order |
| Exprents.SortIndexed | src/org/jetbrains/java/decompiler/modules/decompiler/exps/Exprent.java:172-202 | the loop's result is `SortIndexedSpec`, the grouping that `SortIndexedIsPermutation` and `SortIndexedEmitsRuns` characterise: a permutation keeping non-definitions in order, each run of definitions stably sorted by slot |
| Exprents.SortIndexedPermutes | src/org/jetbrains/java/decompiler/modules/decompiler/exps/Exprent.java:172-202 | the loop's output is a rearrangement of what it has emitted, what is pending and what remains |
| Exprents.SortIndexedKeepsNonDefs | src/org/jetbrains/java/decompiler/modules/decompiler/exps/Exprent.java:182-200 | entries that are not definitions keep their relative order |
| Exprents.SortIndexedIsPermutation | src/org/jetbrains/java/decompiler/modules/decompiler/exps/Exprent.java:172-202 | `sortIndexed` is a permutation of its input, of the same length, in which non-definitions keep their order |
| Exprents.SortIndexedEmitsRuns | src/org/jetbrains/java/decompiler/modules/decompiler/exps/Exprent.java:182-200 | a run of definitions ended by a non-definition is emitted, stably sorted, right before it; a trailing run at the end |
| Exprents.RunAccumulates | src/org/jetbrains/java/decompiler/modules/decompiler/exps/Exprent.java:182-200 | a run of definitions joins the pending list unchanged |
| Exprents.BytecodeOffsets.constructor | src/org/jetbrains/java/decompiler/modules/decompiler/exps/Exprent.java:144-151 | a new node has no offsets |
| Exprents.BytecodeOffsets.AddBytecodeOffsets | src/org/jetbrains/java/decompiler/modules/decompiler/exps/Exprent.java:144-151 | null changes nothing; otherwise the field becomes the old set, or the empty set, joined with the argument |
| Exprents.Wrap32 | src/org/jetbrains/java/decompiler/modules/decompiler/exps/Exprent.java:325-346 | Java's `int` wrap-around gives an `int` and leaves an `int` unchanged |
| Exprents.JavaRem | src/org/jetbrains/java/decompiler/modules/decompiler/exps/Exprent.java:325-346 | Java's `%` agrees with Dafny's on a non-negative dividend and is in `(-b, 0]` for a negative one |
| Exprents.FindObjectPosition | src/org/jetbrains/java/decompiler/modules/decompiler/exps/Exprent.java:325-346 | a numeric position `p` (from `-size` on) selects the child at `(size + p) mod size` |
| Exprents.FindObjectNegativePositionFails | src/org/jetbrains/java/decompiler/modules/decompiler/exps/Exprent.java:325-346 | a position below `-size` whose Java remainder is not zero gives a negative index, and the lookup fails |
| FlattenNames.IntToStringInjective | src/org/jetbrains/java/decompiler/modules/decompiler/sforms/FlattenStatementsHelper.java:86-200 | `Integer.toString` is injective |
| FlattenNames.RoleSuffixDecodes | src/org/jetbrains/java/decompiler/modules/decompiler/sforms/FlattenStatementsHelper.java:86-200 | each role suffix (`_tail`, `_try`, `_cond`, `_init`, `_inc` or none) reads back as its role |
| FlattenNames.NodeNameInjective | src/org/jetbrains/java/decompiler/modules/decompiler/sforms/FlattenStatementsHelper.java:86-200 | distinct nodes get distinct id strings, so the graph's map of nodes by id never merges two nodes |
| FlattenNames.TailName | src/org/jetbrains/java/decompiler/modules/decompiler/sforms/FlattenStatementsHelper.java:264 | `node.id + "_tail"` names a node exactly when the node is a statement's own node and the tail node of that statement |
| FlattenNames.PathKeyIsTriple | src/org/jetbrains/java/decompiler/modules/decompiler/sforms/FlattenStatementsHelper.java:513-524 | two finally path wrappers are `equals` (and hash alike) exactly when source, destination and entry agree |
| FlattenNames.Dedup | src/org/jetbrains/java/decompiler/modules/decompiler/sforms/FlattenStatementsHelper.java:489-491 | the de-duplicated list has no repetitions and holds exactly the elements of the input |
| FlattenStatements.Route | src/org/jetbrains/java/decompiler/modules/decompiler/sforms/FlattenStatementsHelper.java:333-405 | the routed `saveEdge` call records a finally path only with its entries, and a redirect is always a regular edge |
| FlattenStatements.RouteLeavesProtected | src/org/jetbrains/java/decompiler/modules/decompiler/sforms/FlattenStatementsHelper.java:378-393 | an edge that leaves a finally-protected body becomes a regular edge to the handler, and the protected entry is swapped for a handler entry remembering the original destination and type |
| FlattenStatements.RouteResumesAfterHandler | src/org/jetbrains/java/decompiler/modules/decompiler/sforms/FlattenStatementsHelper.java:350-365 | a finally exit inside a handler pops the handler's entry and carries on with the destination and type stored in it |
| FlattenStatements.RouteInsideHandlers | src/org/jetbrains/java/decompiler/modules/decompiler/sforms/FlattenStatementsHelper.java:333-405 | among handler contexts only, an edge other than a finally exit is saved with its own destination and type |
| FlattenStatements.RouteWithoutContexts | src/org/jetbrains/java/decompiler/modules/decompiler/sforms/FlattenStatementsHelper.java:333-405 | outside every finally context an edge is saved as it is |
| FlattenStatements.DirectGraph.constructor | src/org/jetbrains/java/decompiler/modules/decompiler/sforms/FlattenStatementsHelper.java:33-54 | a new graph has no nodes, links or finally maps |
| FlattenStatements.DirectGraph.Link | src/org/jetbrains/java/decompiler/modules/decompiler/sforms/FlattenStatementsHelper.java:444-465 | a link adds the successor and the predecessor only when missing, so the lists stay mirrored and duplicate-free, and nothing else changes |
| FlattenStatements.FlattenHelper.constructor | src/org/jetbrains/java/decompiler/modules/decompiler/sforms/FlattenStatementsHelper.java:33-54 | a helper starts with an empty graph, no destinations, no edges, no branches and no finally records |
| FlattenStatements.FlattenHelper.AddNode | src/org/jetbrains/java/decompiler/modules/decompiler/sforms/FlattenStatementsHelper.java:72-102 | a node is added with its expressions and nothing else changes |
| FlattenStatements.FlattenHelper.PutDest | src/org/jetbrains/java/decompiler/modules/decompiler/sforms/FlattenStatementsHelper.java:72-102 | a destination pair is recorded and nothing else changes |
| FlattenStatements.FlattenHelper.AddEdge | src/org/jetbrains/java/decompiler/modules/decompiler/sforms/FlattenStatementsHelper.java:411-440 | an edge is appended and nothing else changes |
| FlattenStatements.FlattenHelper.ProcessBasicBlock | src/org/jetbrains/java/decompiler/modules/decompiler/sforms/FlattenStatementsHelper.java:72-102 | a block gets one node with its expressions, recorded as its destination; with tail expressions a `_tail` node under the negated id, reached by a regular edge, becomes the source; an if-ending block records its first successor as the positive branch, and fails with no successor |
| FlattenStatements.FlattenHelper.BlockNodes | src/org/jetbrains/java/decompiler/modules/decompiler/sforms/FlattenStatementsHelper.java:73-94 | adds the block's node with its expressions and its destination pair, and with tail expressions the `_tail` node, its pair under the negated id and the regular edge to it; the source is the last node added; the if-branch and finally maps are untouched |
| FlattenStatements.FlattenHelper.ProcessTryCatch | src/org/jetbrains/java/decompiler/modules/decompiler/sforms/FlattenStatementsHelper.java:104-137 | a `_try` node with the try's expressions, a regular edge to each child, and one entry per child with its finally stack |
| FlattenStatements.FlattenHelper.HasContinueEdgeTo | src/org/jetbrains/java/decompiler/modules/decompiler/sforms/FlattenStatementsHelper.java:173-182 | finds a recorded continue edge to the loop exactly when there is one |
| FlattenStatements.FlattenHelper.ProcessDo | src/org/jetbrains/java/decompiler/modules/decompiler/sforms/FlattenStatementsHelper.java:139-226 | plain `do` makes no node and both destinations are the body's entry; `while` uses `_cond` for both; `do-while` enters at the body and continues at `_cond`; `for`/`foreach` enter at `_init` and continue at `_inc`; the continue edge is added only when missing; once the body is flattened, the loop's destination pair is exactly the one `DoDestinations` gives for its loop type |
| FlattenStatements.FlattenHelper.ConditionLoop | src/org/jetbrains/java/decompiler/modules/decompiler/sforms/FlattenStatementsHelper.java:160-185 | a `_cond` node with the condition and a regular edge to the body; the while and do-while destinations as above, with the continue edge from the body's entry only when missing |
| FlattenStatements.FlattenHelper.CountingLoop | src/org/jetbrains/java/decompiler/modules/decompiler/sforms/FlattenStatementsHelper.java:186-223 | `_init`, `_cond` (no expressions for a foreach) and `_inc` nodes; regular edges cond to body, init to cond and inc to cond; direct destination init, continue destination inc |
| FlattenStatements.FlattenHelper.CountingLoopNodes | src/org/jetbrains/java/decompiler/modules/decompiler/sforms/FlattenStatementsHelper.java:188-205 | a counting loop adds its `_init`, `_cond` and `_inc` nodes (the foreach condition empty) and its two destination pairs, and changes nothing else |
| FlattenStatements.FlattenHelper.ProcessOther | src/org/jetbrains/java/decompiler/modules/decompiler/sforms/FlattenStatementsHelper.java:228-268 | each child is queued before the statement, the first with the head expression as tail; afterwards the statement's destination is its first child's node, and a plain if leaves from its head's `_tail` node by its single direct edge |
| FlattenStatements.FlattenHelper.ProcessStatement | src/org/jetbrains/java/decompiler/modules/decompiler/sforms/FlattenStatementsHelper.java:270-289 | dispatch keeps the flattening state and forwards each kind's effect: a block's nodes, destinations and source; a try's `_try` destination and its children with their finally stacks; a loop's body first and its destinations after; any other statement's children one by one, then the first child's node as its destination; a general statement is not flattened |
| FlattenStatements.FlattenHelper.SaveEdge | src/org/jetbrains/java/decompiler/modules/decompiler/sforms/FlattenStatementsHelper.java:411-440 | an edge is collected unless it is a finally exit, and a path through a finally handler is recorded under its source |
| FlattenStatements.FlattenHelper.RouteEdge | src/org/jetbrains/java/decompiler/modules/decompiler/sforms/FlattenStatementsHelper.java:333-405 | the loop makes exactly the `saveEdge` call that `Route` describes and returns its redirect |
| FlattenStatements.FlattenHelper.FlattenStatement | src/org/jetbrains/java/decompiler/modules/decompiler/sforms/FlattenStatementsHelper.java:291-409 | the main loop keeps the flattening state (see Left out) |
| FlattenStatements.FlattenHelper.ResolveShorts | src/org/jetbrains/java/decompiler/modules/decompiler/sforms/FlattenStatementsHelper.java:467-494 | resolving a list of short-range records keeps its length |
| FlattenStatements.FlattenHelper.ResolveLongs | src/org/jetbrains/java/decompiler/modules/decompiler/sforms/FlattenStatementsHelper.java:467-494 | resolving a list of long-range records keeps its length |
| FlattenStatements.FlattenHelper.TargetsMeaning | src/org/jetbrains/java/decompiler/modules/decompiler/sforms/FlattenStatementsHelper.java:444-465 | a node is a target of `a` exactly when some edge from `a` resolves to it; a continue edge resolves to the continue node, any other to the direct node |
| FlattenStatements.FlattenHelper.NegTargetNone | src/org/jetbrains/java/decompiler/modules/decompiler/sforms/FlattenStatementsHelper.java:462-464 | there is no negative branch exactly when no edge from the source goes to a statement other than its positive branch |
| FlattenStatements.FlattenHelper.NegTargetIsLast | src/org/jetbrains/java/decompiler/modules/decompiler/sforms/FlattenStatementsHelper.java:462-464 | the negative branch is where the last such edge leads |
| FlattenStatements.FlattenHelper.TargetsInGraph | src/org/jetbrains/java/decompiler/modules/decompiler/sforms/FlattenStatementsHelper.java:444-465 | resolved edges join nodes of the graph |
| FlattenStatements.FlattenHelper.LinkEdges | src/org/jetbrains/java/decompiler/modules/decompiler/sforms/FlattenStatementsHelper.java:444-465 | succeeds exactly when every edge resolves; then successors are exactly the resolved targets, mirrored and duplicate-free, and the negative branches are recorded |
| FlattenStatements.FlattenHelper.LinkEdge | src/org/jetbrains/java/decompiler/modules/decompiler/sforms/FlattenStatementsHelper.java:446-464 | linking one more edge keeps successors equal to the resolved targets of the edges linked so far, mirrored and duplicate-free, and the negative branches equal to the last qualifying edge's target |
| FlattenStatements.FlattenHelper.ResolveShortList | src/org/jetbrains/java/decompiler/modules/decompiler/sforms/FlattenStatementsHelper.java:473-486 | the inner loop computes the resolved list and the monitor exit of the last monitor path |
| FlattenStatements.FlattenHelper.ResolveLongList | src/org/jetbrains/java/decompiler/modules/decompiler/sforms/FlattenStatementsHelper.java:473-486 | the inner loop computes the resolved list |
| FlattenStatements.FlattenHelper.ResolveShortPaths | src/org/jetbrains/java/decompiler/modules/decompiler/sforms/FlattenStatementsHelper.java:467-494 | each source with records gets a duplicate-free list holding exactly its resolved wrappers, and its monitor exit |
| FlattenStatements.FlattenHelper.ResolveLongPaths | src/org/jetbrains/java/decompiler/modules/decompiler/sforms/FlattenStatementsHelper.java:467-494 | each source with long-range records gets a duplicate-free list holding exactly its resolved wrappers |
| FlattenStatements.FlattenHelper.SetEdges | src/org/jetbrains/java/decompiler/modules/decompiler/sforms/FlattenStatementsHelper.java:442-495 | on success the graph is linked: edges resolved into mirrored, duplicate-free lists, negative branches and de-duplicated finally paths recorded |
| FlattenStatements.FlattenHelper.BuildDirectGraph | src/org/jetbrains/java/decompiler/modules/decompiler/sforms/FlattenStatementsHelper.java:33-54 | on success the graph is linked and closed, no finally exit is stored, the dummy exit has its node, and the first node is the root's |
| FlattenStatements.FlattenHelper.LinkedIsClosed | src/org/jetbrains/java/decompiler/modules/decompiler/sforms/FlattenStatementsHelper.java:442-465 | in a linked graph every link joins two nodes of the graph |
| FlattenStatements.FlattenHelper.AddDummyExit | src/org/jetbrains/java/decompiler/modules/decompiler/sforms/FlattenStatementsHelper.java:41-46 | the dummy exit gets a node without expressions and its destination pair |
| FlattenStatements.FlattenHelper.SetFirst | src/org/jetbrains/java/decompiler/modules/decompiler/sforms/FlattenStatementsHelper.java:50 | the graph's first node is set |
| VarInit.Slots | src/org/jetbrains/java/decompiler/modules/decompiler/vars/VarDefinitionHelper.java:66-90 | `this` (instance methods only) then one slot per parameter |
| VarInit.ParamSlots | src/org/jetbrains/java/decompiler/modules/decompiler/vars/VarDefinitionHelper.java:66-90 | slot 0 for `this` in an instance method, then each parameter at the running sum of the earlier stack sizes |
| VarInit.SlotsIncrease | src/org/jetbrains/java/decompiler/modules/decompiler/vars/VarDefinitionHelper.java:66-90 | the parameter slots rise strictly, so no two share a slot |
| VarInit.ParentScope | src/org/jetbrains/java/decompiler/modules/decompiler/vars/VarDefinitionHelper.java:504-515 | the starting scope holds exactly the parameter slots, each at version 0 |
| VarInit.Join | src/org/jetbrains/java/decompiler/modules/decompiler/vars/VarDefinitionHelper.java:102-130 | joining slot sets fails when either side failed |
| VarInit.JoinLaws | src/org/jetbrains/java/decompiler/modules/decompiler/vars/VarDefinitionHelper.java:102-130 | joining is associative and commutative with the empty set as unit, so the walk's order does not matter |
| VarInit.VarIndices | src/org/jetbrains/java/decompiler/modules/decompiler/vars/VarDefinitionHelper.java:102-130 | catch slots are found exactly when every catch variable is a variable |
| VarInit.ResourceIndices | src/org/jetbrains/java/decompiler/modules/decompiler/vars/VarDefinitionHelper.java:102-130 | resource slots are found exactly when every resource is an assignment to a variable |
| VarInit.CatchVarSlots | src/org/jetbrains/java/decompiler/modules/decompiler/vars/VarDefinitionHelper.java:102-130 | the breadth-first walk collects the catch and resource slots of the whole tree, or fails with the cast's exception exactly when one is not a variable |
| VarInit.MarkCatchVars | src/org/jetbrains/java/decompiler/modules/decompiler/vars/VarDefinitionHelper.java:102-130 | marking keeps each statement's id, children count and expressions |
| VarInit.MarkDefinitions | src/org/jetbrains/java/decompiler/modules/decompiler/vars/VarDefinitionHelper.java:102-130 | each catch variable becomes a definition, anything else is kept |
| VarInit.MarkResources | src/org/jetbrains/java/decompiler/modules/decompiler/vars/VarDefinitionHelper.java:102-130 | each resource assignment's left variable becomes a definition |
| VarInit.MarkedResourcesDefine | src/org/jetbrains/java/decompiler/modules/decompiler/vars/VarDefinitionHelper.java:102-130 | after marking, every resource of a try is a definition site |
| VarInit.VarSlots | src/org/jetbrains/java/decompiler/modules/decompiler/vars/VarDefinitionHelper.java:394-411 | `getAllVars` succeeds exactly when the list holds no null |
| VarInit.VarSlotsMeans | src/org/jetbrains/java/decompiler/modules/decompiler/vars/VarDefinitionHelper.java:394-411 | a slot is found exactly when it is that of a variable in one of the expressions or below them |
| VarInit.Somes | src/org/jetbrains/java/decompiler/modules/decompiler/vars/VarDefinitionHelper.java:375-377 | a basic block's expressions as non-null entries |
| VarInit.Count | src/org/jetbrains/java/decompiler/modules/decompiler/vars/VarDefinitionHelper.java:360-366 | a slot is counted at most once per child set |
| VarInit.Union | src/org/jetbrains/java/decompiler/modules/decompiler/vars/VarDefinitionHelper.java:360-366 | the union holds exactly the slots some child uses |
| VarInit.CountMap | src/org/jetbrains/java/decompiler/modules/decompiler/vars/VarDefinitionHelper.java:360-366 | the count map's keys are exactly the slots the children use |
| VarInit.OwnCount | src/org/jetbrains/java/decompiler/modules/decompiler/vars/VarDefinitionHelper.java:375-377 | the statement's own slots join the keys |
| VarInit.DefinedMeans | src/org/jetbrains/java/decompiler/modules/decompiler/vars/VarDefinitionHelper.java:360-389 | a statement defines a slot exactly when it uses it itself or at least two children use it; the returned set is all slots used by it and its children |
| VarInit.Record | src/org/jetbrains/java/decompiler/modules/decompiler/vars/VarDefinitionHelper.java:383-389 | each defined slot is recorded at the statement's path, other records are kept, and the statement's slot set is stored |
| VarInit.InitStatSound | src/org/jetbrains/java/decompiler/modules/decompiler/vars/VarDefinitionHelper.java:322-392 | `initStatement` returns exactly the slots used in the subtree and records a slot only at a statement of the tree that defines it |
| VarInit.InitChildrenSound | src/org/jetbrains/java/decompiler/modules/decompiler/vars/VarDefinitionHelper.java:334-357 | the children loop returns each child's used slots and records only defining statements |
| VarInit.InitRootSound | src/org/jetbrains/java/decompiler/modules/decompiler/vars/VarDefinitionHelper.java:322-392 | from the root, every recorded slot is at a valid path whose statement defines it |
| VarInitPass.GetAllVars | src/org/jetbrains/java/decompiler/modules/decompiler/vars/VarDefinitionHelper.java:394-411 | `getAllVars` returns only variables, and fails exactly on a null in the list |
| VarInitPass.CountOnce | src/org/jetbrains/java/decompiler/modules/decompiler/vars/VarDefinitionHelper.java:360-366 | each slot of a child's set gains one in the count map |
| VarInitPass.CountChildVars | src/org/jetbrains/java/decompiler/modules/decompiler/vars/VarDefinitionHelper.java:360-366 | the counting loop computes the count map of the children's sets |
| VarInitPass.SetOwnVars | src/org/jetbrains/java/decompiler/modules/decompiler/vars/VarDefinitionHelper.java:375-377 | the statement's own slots are set to 2 |
| VarInitPass.RecordDefs | src/org/jetbrains/java/decompiler/modules/decompiler/vars/VarDefinitionHelper.java:383-389 | the recording loop computes `Record` |
| VarInitPass.InitStatement | src/org/jetbrains/java/decompiler/modules/decompiler/vars/VarDefinitionHelper.java:322-392 | the method's result is `InitStat`, which `InitStatSound` shows returns the slots used in the subtree and records only defining statements |
| VarInitPass.InitObjects | src/org/jetbrains/java/decompiler/modules/decompiler/vars/VarDefinitionHelper.java:334-357 | the loop over the sequential objects gives the children's slot sets and maps of `InitChildren`, and `currVars` collects the expressions, loop conditions and finally monitors in order |
| VarInitPass.InitObject | src/org/jetbrains/java/decompiler/modules/decompiler/vars/VarDefinitionHelper.java:335-356 | one object of that loop keeps the loop's invariant, or the whole children pass fails |
| VarFirstBlock.FindFirstBlock | src/org/jetbrains/java/decompiler/modules/decompiler/vars/VarDefinitionHelper.java:282-320 | the worklist loop's result is `FirstBlock`, which `FirstBlockStops` shows is a statement of the tree where the descent stops |
| VarFirstBlock.FirstBlockStops | src/org/jetbrains/java/decompiler/modules/decompiler/vars/VarDefinitionHelper.java:282-320 | the block found is a statement below the start where the descent ends: a basic block, a labelled statement, or a statement it does not descend through |
| VarDeclare.FirstUse | src/org/jetbrains/java/decompiler/modules/decompiler/vars/VarDefinitionHelper.java:191-213 | the search stops within the list |
| VarDeclare.FirstUseMeans | src/org/jetbrains/java/decompiler/modules/decompiler/vars/VarDefinitionHelper.java:191-213 | no expression before the stopping point assigns the slot or has it below, and the one at the stopping point does |
| VarDeclare.DeclareMeans | src/org/jetbrains/java/decompiler/modules/decompiler/vars/VarDefinitionHelper.java:191-225 | after declaring, the declaration comes before every other use of the slot and the other expressions keep their order: the first assignment becomes the declaration, or a new declaration is inserted right before the first mention |
| VarDeclare.DeclareIn | src/org/jetbrains/java/decompiler/modules/decompiler/vars/VarDefinitionHelper.java:191-225 | the loop over the chosen list computes `Declare` |
| VarDeclare.Target | src/org/jetbrains/java/decompiler/modules/decompiler/vars/VarDefinitionHelper.java:178-189 | the list chosen for the declaration lives in a statement of the tree |
| VarDeclare.DefineVar | src/org/jetbrains/java/decompiler/modules/decompiler/vars/VarDefinitionHelper.java:142-226 | one entry of `setVarDefinitions` computes `DefineSlot` |
| VarDeclare.PlaceDeclaration | src/org/jetbrains/java/decompiler/modules/decompiler/vars/VarDefinitionHelper.java:178-225 | the search, the choice of list and the loop compute `Placement` |
| VarDeclare.EditedInPlace | src/org/jetbrains/java/decompiler/modules/decompiler/vars/VarDefinitionHelper.java:142-226 | a statement edited in place keeps the tree's shape |
| VarDeclare.DefineSlotMeans | src/org/jetbrains/java/decompiler/modules/decompiler/vars/VarDefinitionHelper.java:142-226 | declaring keeps the tree's shape, and unless the slot is implicitly defined some statement of the new tree declares it |
| VarDeclare.PlacementMeans | src/org/jetbrains/java/decompiler/modules/decompiler/vars/VarDefinitionHelper.java:178-225 | after placement some statement of the tree declares the slot |
| VarDeclare.UpdateAtOthers | src/org/jetbrains/java/decompiler/modules/decompiler/vars/VarDefinitionHelper.java:142-226 | editing one statement leaves every other statement's own lists as they were |
| VarDeclare.DeclareKeeps | src/org/jetbrains/java/decompiler/modules/decompiler/vars/VarDefinitionHelper.java:191-225 | declaring another slot in a list keeps an existing declaration |
| VarDeclare.DefineSlotKeeps | src/org/jetbrains/java/decompiler/modules/decompiler/vars/VarDefinitionHelper.java:142-226 | declaring one slot keeps every declaration of another slot where it was |
| VarDeclare.UpdateAtShape | src/org/jetbrains/java/decompiler/modules/decompiler/vars/VarDefinitionHelper.java:142-226 | replacing a statement by one of the same shape keeps the tree's shape and puts the new statement at the path |
| VarTypes.Lookup | src/org/jetbrains/java/decompiler/modules/decompiler/vars/VarDefinitionHelper.java:796-830 | a type is found exactly for a key of the map |
| VarTypes.MergedType | src/org/jetbrains/java/decompiler/modules/decompiler/vars/VarDefinitionHelper.java:796-830 | equal non-null minimums short-circuit; a missing minimum or no common supertype gives null; a non-object supertype is returned; for a class only `fromMax`, `fromMin` or `toMin` can be returned, and only when its `instanceOf` check holds |
| VarTypes.SameBoundsMerge | src/org/jetbrains/java/decompiler/modules/decompiler/vars/VarDefinitionHelper.java:790-830 | two versions with the same minimum type merge to it |
| VarTypes.TightenExprents | src/org/jetbrains/java/decompiler/modules/decompiler/vars/VarDefinitionHelper.java:427-501 | the inner loop computes the narrowing of the maximum types over the expressions |
| VarTypes.PopulateTypeBounds | src/org/jetbrains/java/decompiler/modules/decompiler/vars/VarDefinitionHelper.java:427-501 | the walk from the root leaves the minimum types alone and its maximum types are `TightenStats` from the root, which `TightenStatsNarrows` shows only narrows |
| VarTypes.TightenNarrows | src/org/jetbrains/java/decompiler/modules/decompiler/vars/VarDefinitionHelper.java:427-501 | one use site only narrows: every known bound stays known, a class-typed bound becomes a subclass of itself, and a new or changed bound is a plain class other than `java/lang/Object` |
| VarTypes.TightenAllNarrows | src/org/jetbrains/java/decompiler/modules/decompiler/vars/VarDefinitionHelper.java:427-501 | the walk over an expression list only narrows |
| VarTypes.TightenStatsNarrows | src/org/jetbrains/java/decompiler/modules/decompiler/vars/VarDefinitionHelper.java:427-501 | `populateTypeBounds` only narrows the maximum types |
| VarMerge.DefinitionSite | src/org/jetbrains/java/decompiler/modules/decompiler/vars/VarDefinitionHelper.java:637-676 | the variable a node defines: the node itself or an assignment's left side, when it is a variable marked as a definition |
| VarMerge.ProcessExprent | src/org/jetbrains/java/decompiler/modules/decompiler/vars/VarDefinitionHelper.java:637-676 | only a definition whose original slot is in scope conflicts, and not when that exact pair is blacklisted; otherwise the definition becomes the slot's version in scope, and in `leaked` too when the statement leaks |
| VarMerge.BlacklistSilences | src/org/jetbrains/java/decompiler/modules/decompiler/vars/VarDefinitionHelper.java:637-676 | blacklisting a conflict's pair makes the same visit succeed |
| VarMerge.ReadFirstExprentMeans | src/org/jetbrains/java/decompiler/modules/decompiler/vars/VarDefinitionHelper.java:1102-1128 | in an assignment the target is read first exactly when it occurs on the right, or inside a left side that is not a variable; in any other node exactly when it occurs anywhere |
| VarMerge.IsVarReadFirstExprent | src/org/jetbrains/java/decompiler/modules/decompiler/vars/VarDefinitionHelper.java:1102-1128 | the result is `ReadFirstExprent`, characterised by `ReadFirstExprentMeans` |
| VarMerge.IsVarReadFirst | src/org/jetbrains/java/decompiler/modules/decompiler/vars/VarDefinitionHelper.java:1075-1100 | the result is `ReadFirstStat`: true exactly when some expression or nested statement among the objects from `index` on reads the variable, where the left side of an assignment does not count as a read (`ReadFirstExprentMeans`) |
| VarMerge.IsVarReadFirstObjs | src/org/jetbrains/java/decompiler/modules/decompiler/vars/VarDefinitionHelper.java:1076-1091 | the loop over the objects from `index` finds a first read exactly when `ReadFirstObjs` does |
| VarMerge.IsVarReadFirstList | src/org/jetbrains/java/decompiler/modules/decompiler/vars/VarDefinitionHelper.java:1093-1097 | the loop over a block's expressions from `index` finds a first read exactly when `ReadFirstList` does |
| VarMerge.ChildScope | src/org/jetbrains/java/decompiler/modules/decompiler/vars/VarDefinitionHelper.java:591-615 | the head child of an if, switch or synchronized statement shares the scope and the leak map; later children of those, and try or catch children, start empty; other children share the scope only |
| VarMerge.MergeVars | src/org/jetbrains/java/decompiler/modules/decompiler/vars/VarDefinitionHelper.java:532-635 | the method computes `mergeVars(stat)` as its specification function defines it |
| VarMerge.MergeExprents | src/org/jetbrains/java/decompiler/modules/decompiler/vars/VarDefinitionHelper.java:626-632 | a basic block's loop computes the leaf merge |
| VarMerge.MergeObjects | src/org/jetbrains/java/decompiler/modules/decompiler/vars/VarDefinitionHelper.java:562-624 | a compound statement's loop computes the object merge |
| VarMerge.MergeObject | src/org/jetbrains/java/decompiler/modules/decompiler/vars/VarDefinitionHelper.java:564-623 | one object of the loop keeps the loop's invariant |
| VarMerge.MergeStatObject | src/org/jetbrains/java/decompiler/modules/decompiler/vars/VarDefinitionHelper.java:566-616 | a child statement's conflict is returned at once; otherwise its scope and leaks flow to the next object and the loop's invariant is kept |
| VarMerge.MergeLeafLeaks | src/org/jetbrains/java/decompiler/modules/decompiler/vars/VarDefinitionHelper.java:626-632 | a basic block adds to the leak map only slots of its own definitions, and only when it leaks |
| VarMerge.ScopeLeakage | src/org/jetbrains/java/decompiler/modules/decompiler/vars/VarDefinitionHelper.java:591-615 | a statement leaks only slots it defines itself, slots its own expressions define when its kind leaks, and slots its head child leaks when it is an if, switch or synchronized statement |
| VarMerge.MergeLeafClash | src/org/jetbrains/java/decompiler/modules/decompiler/vars/VarDefinitionHelper.java:626-632 | a conflict found in a block's expressions leaves the tree as it was and is never blacklisted |
| VarMerge.MergeObjsClash | src/org/jetbrains/java/decompiler/modules/decompiler/vars/VarDefinitionHelper.java:562-624 | a conflict found among a compound statement's objects leaves the tree unchanged, never blacklisted, or with exactly one definition of `from` removed from one statement |
| VarMerge.MergeDefsClash | src/org/jetbrains/java/decompiler/modules/decompiler/vars/VarDefinitionHelper.java:537-551 | a conflict among a statement's own definitions leaves the tree unchanged, never blacklisted, or with that one definition of `from` removed |
| VarMerge.MergeStatClash | src/org/jetbrains/java/decompiler/modules/decompiler/vars/VarDefinitionHelper.java:532-635 | every conflict `mergeVars` reports leaves the tree unchanged (and then the pair is not blacklisted) or with exactly one definition of `from` removed from one statement |
| VarRemap.RemapExprent | src/org/jetbrains/java/decompiler/modules/decompiler/vars/VarDefinitionHelper.java:736-788 | afterwards `from` is gone, `to` occurs wherever either occurred, every other pair is untouched, and a variable `from` becomes `to` with the merged type and no definition flag |
| VarRemap.HasVarAssignment | src/org/jetbrains/java/decompiler/modules/decompiler/vars/VarDefinitionHelper.java:736-788 | an assignment's variables are those of its two sides |
| VarRemap.RetypeKeepsVars | src/org/jetbrains/java/decompiler/modules/decompiler/vars/VarDefinitionHelper.java:766-784 | retyping an assigned constant changes no variable |
| VarRemap.RemapList | src/org/jetbrains/java/decompiler/modules/decompiler/vars/VarDefinitionHelper.java:678-734 | the block's list does not grow |
| VarRemap.RemapListFree | src/org/jetbrains/java/decompiler/modules/decompiler/vars/VarDefinitionHelper.java:678-734 | no expression of the remapped list holds `from` |
| VarRemap.RemapExprentList | src/org/jetbrains/java/decompiler/modules/decompiler/vars/VarDefinitionHelper.java:678-734 | the list loop computes the remapped list and reports a rename exactly when `from` occurred |
| VarRemap.RemapListEntry | src/org/jetbrains/java/decompiler/modules/decompiler/vars/VarDefinitionHelper.java:697-706 | one entry of the list loop: it reports whether the entry held `from`, and keeps the loop's invariant, a renamed bare variable being removed without advancing the index |
| VarRemap.RemapExprentWalk | src/org/jetbrains/java/decompiler/modules/decompiler/vars/VarDefinitionHelper.java:736-788 | the walk computes the remapped expression and reports a rename exactly when `from` occurred |
| VarRemap.FixDefs | src/org/jetbrains/java/decompiler/modules/decompiler/vars/VarDefinitionHelper.java:711-731 | the definitions list does not grow |
| VarRemap.FixDefsMeans | src/org/jetbrains/java/decompiler/modules/decompiler/vars/VarDefinitionHelper.java:711-731 | after the fix-up no definition of `from` is left, every definition of `to` has the merged type, and every other definition is kept |
| VarRemap.FixVarDefinitions | src/org/jetbrains/java/decompiler/modules/decompiler/vars/VarDefinitionHelper.java:711-731 | the iterator loop computes `FixDefs` |
| VarRemap.RemapStat | src/org/jetbrains/java/decompiler/modules/decompiler/vars/VarDefinitionHelper.java:678-734 | a remap keeps the statement's id, children count and kind of body |
| VarRemap.RemapStatement | src/org/jetbrains/java/decompiler/modules/decompiler/vars/VarDefinitionHelper.java:678-734 | the method computes `remapVar(stat)` as its specification function defines it |
| VarRemap.RemapObjects | src/org/jetbrains/java/decompiler/modules/decompiler/vars/VarDefinitionHelper.java:682-693 | the loop over the sequential objects remaps each child and reports a rename exactly when a child or an own expression held `from` |
| VarRemap.RemapObject | src/org/jetbrains/java/decompiler/modules/decompiler/vars/VarDefinitionHelper.java:683-692 | one object of the loop keeps the loop's invariant |
| VarRemap.RemapOccurrences | src/org/jetbrains/java/decompiler/modules/decompiler/vars/VarDefinitionHelper.java:678-734 | a remap succeeds exactly when `from` occurs somewhere under the statement, and afterwards it occurs nowhere |
| VarRemap.RemapKeepsOthers | src/org/jetbrains/java/decompiler/modules/decompiler/vars/VarDefinitionHelper.java:678-734 | a remap leaves every other pair where it was |
| VarRemap.RemapVar | src/org/jetbrains/java/decompiler/modules/decompiler/vars/VarDefinitionHelper.java:678-680 | equal pairs throw; with no merged type nothing changes; otherwise the remap of the statement |
| VarFinal.Written | src/org/jetbrains/java/decompiler/modules/decompiler/vars/VarDefinitionHelper.java:1174-1203 | the written variable is a variable; the call fails exactly for an increment or decrement without an operand |
| VarFinal.Mark | src/org/jetbrains/java/decompiler/modules/decompiler/vars/VarDefinitionHelper.java:1174-1198 | a written non-definition awaiting its first assignment stops awaiting it; one not awaiting is marked non-final; anything else changes nothing |
| VarFinal.SetNonFinalExprent | src/org/jetbrains/java/decompiler/modules/decompiler/vars/VarDefinitionHelper.java:1174-1203 | the expression walk computes its specification function |
| VarFinal.FinalExprentMarks | src/org/jetbrains/java/decompiler/modules/decompiler/vars/VarDefinitionHelper.java:1174-1203 | the walk marks only versions reassigned in the expression, never adds to those awaiting an assignment, and never unmarks |
| VarFinal.FinalChildrenMarks | src/org/jetbrains/java/decompiler/modules/decompiler/vars/VarDefinitionHelper.java:1174-1203 | the children loop marks only versions reassigned in the children it visits |
| VarFinal.NodeRule | src/org/jetbrains/java/decompiler/modules/decompiler/vars/VarDefinitionHelper.java:1174-1198 | a reassigned version not awaiting its first assignment ends up marked; one awaiting it no longer awaits |
| VarFinal.DefPairs | src/org/jetbrains/java/decompiler/modules/decompiler/vars/VarDefinitionHelper.java:1130-1172 | the definitions' pairs, or the cast's failure exactly when one is not a variable |
| VarFinal.SetNonFinalList | src/org/jetbrains/java/decompiler/modules/decompiler/vars/VarDefinitionHelper.java:1130-1172 | the basic block's loop computes its specification function |
| VarFinal.SetNonFinal | src/org/jetbrains/java/decompiler/modules/decompiler/vars/VarDefinitionHelper.java:1130-1172 | the statement walk computes its specification function |
| VarFinal.FinalListMarks | src/org/jetbrains/java/decompiler/modules/decompiler/vars/VarDefinitionHelper.java:1130-1172 | the block's loop marks only versions reassigned in its expressions |
| VarFinal.FinalStatMarks | src/org/jetbrains/java/decompiler/modules/decompiler/vars/VarDefinitionHelper.java:1130-1203 | every version the pass marks non-final is reassigned in an expression it walks, and no mark is taken back |
| VarFinal.FinalStatsMarks | src/org/jetbrains/java/decompiler/modules/decompiler/vars/VarDefinitionHelper.java:1130-1172 | the children loop marks only versions reassigned in the children |
| VarDefinition.VarDefinitionHelper.constructor | src/org/jetbrains/java/decompiler/modules/decompiler/vars/VarDefinitionHelper.java:50-133 | the helper starts with the tree, the parameter sizes and the type oracle, and empty maps |
| VarDefinition.VarDefinitionHelper.MergeVarsRoot | src/org/jetbrains/java/decompiler/modules/decompiler/vars/VarDefinitionHelper.java:503-529 | the helper stays valid; the maps are untouched and the maximum types are narrowed from the root; the new root, blacklist and outcome are exactly the merge rounds from the parameter scope and the old root, so the tree keeps its shape, a pass means `mergeVars` with the final blacklist finds no conflict, and a failure is an `IllegalArgumentException` or running out of rounds |
| VarDefinition.MergeLoop | src/org/jetbrains/java/decompiler/modules/decompiler/vars/VarDefinitionHelper.java:519-528 | the search–remap–blacklist loop ends with exactly the outcome, tree and blacklist of `MergeRounds` from an empty blacklist |
| VarDefinition.MergeRoundsMeans | src/org/jetbrains/java/decompiler/modules/decompiler/vars/VarDefinitionHelper.java:519-528 | the merge rounds keep the tree's shape; they pass only when a search from the parent scope with their final blacklist finds no conflict, and fail only with `IllegalArgumentException` or `OutOfFuel` |
| VarDefinition.DroppedShape | src/org/jetbrains/java/decompiler/modules/decompiler/vars/VarDefinitionHelper.java:537-551 | removing a clashing definition while searching keeps every statement of the tree in place |
| VarDefinition.RemapShape | src/org/jetbrains/java/decompiler/modules/decompiler/vars/VarDefinitionHelper.java:678-734 | remapping a variable keeps every statement of the tree in place |
| VarDefinition.VarDefinitionHelper.Init | src/org/jetbrains/java/decompiler/modules/decompiler/vars/VarDefinitionHelper.java:50-133 | on success the implicit definitions are the parameter slots and the catch and resource slots, catch variables are marked, and every recorded slot is at a statement that defines it |
| VarDefinition.VarDefinitionHelper.DeclareAll | src/org/jetbrains/java/decompiler/modules/decompiler/vars/VarDefinitionHelper.java:138-226 | the tree keeps its shape and the maps are untouched; on success every slot of the order that is not implicitly defined is declared in some statement |
| VarDefinition.VarDefinitionHelper.SetVarDefinitions | src/org/jetbrains/java/decompiler/modules/decompiler/vars/VarDefinitionHelper.java:135-231 | the helper stays valid and the tree keeps its shape; on success every recorded slot that is not implicitly defined is declared in the tree after the declaration pass, the final tree and blacklist are exactly the merge rounds from that tree, `mergeVars` then finds no conflict, the non-final set is exactly what the `setNonFinal` walk of the final tree computes, no mark is taken back, and every new one is a version reassigned in an expression that walk visited |
| VarDefinition.DeclaredKept | src/org/jetbrains/java/decompiler/modules/decompiler/vars/VarDefinitionHelper.java:138-226 | declaring slot `order[i]` keeps every declaration of the slots before it in the order |

## Left out

- `VarProcessor`, the internals of `VarType`, the `Statement` subclasses, `CodeConstants`, `InterpreterUtil`, `MethodDescriptor`, `PoolInterceptor`, `GenericType` and `LazyLoader` are not part of this model. Where the core calls them, the model takes their answers as parameters: the slot-to-original map `orig`, the common-supertype function `common`, the per-version types, the parameter stack sizes, a renaming map for the interceptor, and a pool standing for the reloaded one.
- The order of the sequential objects of each statement kind, and the child layout of `if` statements, are fixed by the model (`Statements.SequentialObjects`), because the subclasses that define them are not part of this model.
- `varproc.setVarType(to, merged)` at the end of `remapVar` (VarDefinitionHelper.java:783) is left out: the type map lives in `VarProcessor`. The merged type is still written into the remapped variables and definitions.
- `setVarName`, `VarNamesCollector`, `propogateLVTs`, `findLVT`, `findTypes`, `applyTypes` and the `VarInfo` records are left out: they only name variables or attach debug-table types and do not change which statement declares a slot.
- `HashMap` iteration order in `setVarDefinitions` is a parameter `order`. `VarDefinition.VarDefinitionHelper.DeclareAll` and `VarDefinition.VarDefinitionHelper.SetVarDefinitions` require that it lists every recorded slot exactly once, which any iteration of the map does.
- Statements are values edited in place through paths. Aliasing between statement objects, which the source never relies on here, is not modelled.
- VarDefinition.VarDefinitionHelper.MergeVarsRoot: the source repeats `mergeVars` until no conflict is left; the model bounds the repetitions by `fuel` and fails with `OutOfFuel` when they run out, so termination of the source loop is not proved.
- FlattenStatements.FlattenHelper.FlattenStatement: only proves that the flattening state stays well formed (every recorded edge starts at a node of the graph and is not a finally exit, every destination pair names nodes of the graph, and no links exist yet). The loop runs on `fuel`. What each step does to the state is stated per kind by `ProcessStatement`, per edge by `RouteEdge` and `SaveEdge`; no contract describes the graph the whole walk builds.
- `graph.sortReversePostOrder()` at the end of `buildDirectGraph` (FlattenStatementsHelper.java:51) is not modelled: it only reorders the finished graph's node list, and `DirectGraph`'s traversal is not part of this model.
- `instanceOf` reads each interface name through `cl.getPool().getPrimitiveConstant(interfaces[i])` (StructContext.java:202); the model uses the class's already decoded `interfaceNames`, so it assumes the pool lookup yields the name the class declares and does not model a lookup that fails or throws.
- The constant pool's `resolveConstant` (the `PooledConstant` subclasses) is not part of this model: it is the parameter `resolve`, which maps an entry and the pool to the resolved entry, with `None` standing for an exception it throws; the constructor then fails with `ResolveFailed` at that index.
- FlattenStatements.FlattenHelper.ProcessStatement: a general statement (`Statement.TYPE_GENERAL`) gets no node, as in the source's `switch`; the model does not flatten it further.
- `thisVars` handling, expression rendering (`toJava`), the global expression id counter and its `ThreadLocal` are left out: they do not take part in the modelled passes.
- UTF-8 decoding (`readUTF`) and floating-point values in the pool are kept as raw bytes or bits; `getClassElement` and `getLinkConstant` are left out because they only cast entries that `getConstant` already returns.
- `StructContext`'s archive handling, `addSpace`, units and I/O, `getAllGenerics`, and the reading of fields, methods and attributes in `StructClass.create` are left out: they read files. `create` is modelled from the values it reads.
- `InitializerProcessor`, `StructGeneralAttribute` and `ExprentStack` are not part of this model.
- The `whitelist` parameter of `isVarReadFirst` is left out: every call in the modelled code passes none.
- Concurrency is not modelled; the source's passes are single-threaded.
- Java `int` overflow is modelled where it matters: version packing, `findObject`'s index arithmetic and the pool's two's-complement reads. Elsewhere slot numbers and counts are unbounded integers.
