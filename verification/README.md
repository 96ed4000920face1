# Ryo: verified models

Dafny models of the parts of the Ryo compiler and of its string runtime whose correctness depends on
state that changes step by step, with proofs of what those parts promise. One module family per source
file:

| file | models |
|---|---|
| `Common.dfy` | types shared by the other files |
| `TypeDefiner.dfy` | the depth-first search that lays out structs, enums, errors and error families |
| `StrSlot.dfy` | the 24-byte string slot (inline, heap, static), push, concat, free, and the allocation ledger |
| `Formatters.dfy` | decimal integers and escaped byte strings, written into slots |
| `ReadLine.dfy` | the buffered line reader and its spin lock |
| `TypeArena.dfy`, `InternPool.dfy`, `Layout.dfy` | the intern pool: word arenas, handle tables, two-phase definitions, layout, type queries |
| `JsonValidate.dfy` | the JSON validator benchmark against the grammar of RFC 8259 |
| `TirReach.dfy`, `TreeShape.dfy`, `JumpPath.dfy`, `Spine.dfy` | reachability probes, tree-shaped bodies, jump paths, and the spilling stack they use |
| `Indent.dfy` | the offside-rule pass |
| `Stamp.dfy` | the content-stamp hasher |
| `AstPretty.dfy`, `AstDrawing.dfy`, `AstTrees.dfy` | the tree-drawing printer, a reader of such drawings, and the tree that an expression is drawn as |
| `RuntimeCache.dfy` | the runtime-archive cache, as sequential code and as a protocol of crashing processes, over a directory with links |

Conventions. A value that the source updates in place is a class field, and its methods are proved against
functions of the old and new state. Where the source panics or aborts, a method returns `ok == false` (or
an outcome that says so) and its contract says when: whether the k-th allocation, `read` or file operation
fails is a constant of the model, and a contract that allows failure points at the operation that failed or
at the size that was too large. What `read` returns, the order in which a directory lists its entries, the
hash functions of the intern pool and the growth of its tables are arbitrary: the proofs hold for every choice.

Seven places where the code and a plain reading of its promises differ:

- Bytes copied while a heap string grows total less than twice the final length, except when nothing was
  copied at all and the final length is 0, where both sides are 0: the bound reads `m == 0 || m < 2 * len`.
- `void` is neither copied nor dropped. "Needs drop exactly when not Copy" fails for a `void` under enums, errors
  and unions only, such as `E!void` for an error `E` with no payload (`VoidPayloadWitness`), and holds exactly as
  `DropIsNotCopyIff` says; "needs drop exactly when something is owned" fails for a struct that holds an `E!void`
  (`VoidFieldWitness`) and holds exactly as `DropIsHeapIff` says. Types with no `void` part satisfy both.
- Padding before a payload's first field is less than the payload's alignment, but not always less than the
  field's own: a `bool` before an `int` is preceded by four bytes (`TagPaddingWitness`). `EnumLayoutSound`
  states exactly when it is.
- `contains_reachable` relies on tree shape only for its cost: its answer is plain reachability on every
  body whose operands precede their users, and over a tree each of its walks pops an instruction at most once.
- `├── ` promises a later sibling. The pattern of a match arm whose block has no statements is drawn with it and has
  none; at every other node the connector is right (`ConnectorsTell`).
- `collect_jump_path` answers true when it located its target, and leaves untaken arms out. For a target that is a
  statement both hold. One inside a condition or a bound is collected, but the answer is false under a loop, or under an
  `if` with an `else`, whose `else` branch is collected as well (`ConditionWitness`); `LocatedExactly` states when
  the answer is true.
- A symbolic link at a process's own temporary name in the runtime cache: the write goes through the link to
  whatever it leads to, the rename moves the link to the final name, the call succeeds with a link for an archive,
  and later calls for it are refused (`LinkWitness`). What is handed out is a regular file exactly when one was
  there or no link was at the temporary name (`Extract`, `CacheSafety`).

## Model

| member | source | states |
|---|---|---|
| TypeDefiner.ResolveStable | ryo-frontend/src/astgen.rs:117-463 | once every name a type refers to by value has been settled, resolving it gives the same type whatever else is laid out, and a type that resolves is laid out down to its parts |
| TypeDefiner.ResolvedIsLaid | ryo-frontend/src/astgen.rs:339-368 | whatever has been laid out so far, a type that resolves is a bare name or is laid out down to its parts: an anonymous struct, laid out at once, never lacks a field's layout |
| TypeDefiner.ResolveMeans | ryo-frontend/src/astgen.rs:117-463 | a type expression resolves exactly when its names are known, distinct and laid out as its form needs, and then to the type its parts stand for: a primitive, a nominal or a view of one, the fields in order with their types, or the set of named errors with families taken apart and the success type |
| TypeDefiner.ExpandedExact | ryo-frontend/src/astgen.rs:178-261 | an error union's set holds exactly the errors its members name, each family counting as its members |
| TypeDefiner.PositionalIsAnon | ryo-frontend/src/astgen.rs:143-176 | a positional type resolves as the anonymous struct with the fields "0", "1" and so on |
| TypeDefiner.TypeDefiner.constructor | ryo-frontend/src/astgen.rs:36-54 | the search starts with every declaration pending, the compiler-known error already laid out with its one `str` field, and the search invariant holding |
| TypeDefiner.TypeDefiner.DefineAll | ryo-frontend/src/astgen.rs:654-684 | in any order, the driver leaves every name defined or failed; a name is defined exactly when nothing it contains by value, at any depth, is on a containment cycle or ill-formed; every define call carried exactly the declared fields |
| TypeDefiner.TypeDefiner.Define | ryo-frontend/src/astgen.rs:873-888 | terminates; settles the name unless it is still on the search stack; pending names only decrease; the search invariant is kept |
| TypeDefiner.TypeDefiner.OrderRef | ryo-frontend/src/astgen.rs:892-933 | a reference reported bad really makes its owner undefinable; one let through is defined; a reference back into the stack adds one `InfiniteSize` report, of this owner, this field and this target, and settled references add none |
| TypeDefiner.TypeDefiner.ResolveFieldList | ryo-frontend/src/astgen.rs:963-994 | a field list that does not fail is returned with its declared names and its types resolved as with everything laid out, each with a complete layout by now; one that fails condemns its owner |
| TypeDefiner.TypeDefiner.DefineStruct | ryo-frontend/src/astgen.rs:1022-1056 | the struct ends defined or failed with the invariant kept: its define call carries the declared fields, after the define calls of all their types |
| TypeDefiner.TypeDefiner.DefineEnum | ryo-frontend/src/astgen.rs:1058-1142 | the same for enums, variant by variant, including empty enums and duplicate variant names |
| TypeDefiner.TypeDefiner.DefineError | ryo-frontend/src/astgen.rs:1144-1196 | the same for errors, including duplicate payload field names |
| TypeDefiner.TypeDefiner.DefineErrorFamily | ryo-frontend/src/astgen.rs:935-957 | the family ends defined or failed with the invariant kept: a defined family has only defined members, a failed one contains a bad name |
| TypeDefiner.TypeDefiner.Settle | ryo-frontend/src/astgen.rs:1022-1196 | the verdict is recorded once; a success is the define call, with exactly the declared payloads, when all their types are laid out |
| TypeDefiner.DefinedIsGood | ryo-frontend/src/astgen.rs:811-826 | no defined type reaches a containment cycle or an ill-formed declaration |
| TypeDefiner.FinalVerdicts | ryo-frontend/src/astgen.rs:811-826 | once all names are settled, defined and sound coincide |
| TypeDefiner.LayoutFacts | ryo-frontend/src/astgen.rs:456-463 | each defined type, and nothing else, is given a layout exactly once |
| TypeDefiner.FieldsLaidFirst | ryo-frontend/src/astgen.rs:1022-1196 | each define call carries the declared fields and comes after the define calls of every nominal type nested in them and of everything the declaration contains by value, members of error families included |
| TypeDefiner.OrderIndependence | ryo-frontend/src/astgen.rs:654-684 | two complete runs over the same declarations in different orders agree on every verdict, on the set of layouts and on the arguments of every define call |
| TypeDefiner.EveryFieldCycleReported | ryo-frontend/src/astgen.rs:892-933 | every by-value cycle through fields has one of its own edges reported as `InfiniteSize` (white-path argument) |
| TypeDefiner.ReportsCloseCycles | ryo-frontend/src/astgen.rs:892-933 | with error families too, each report names a field of its owner that contains its target by value and closes a containment cycle, so an acyclic program gets none |
| TypeDefiner.InfiniteSizeIffCycle | ryo-frontend/src/astgen.rs:873-994 | without error families: something is reported if and only if a by-value cycle exists, and every report names a field of its owner on a cycle with the field's type |
| SlotBytes.TagIsLastByte | runtime/src/lib.rs:769-822 | the little-endian cap word's top byte is byte 23: the inline test and length read from the cap word are the tag byte's, whatever the other seven bytes hold |
| SlotBytes.TripleWords | runtime/src/lib.rs:769-822 | pointer, length and capacity read back from a stored triple |
| SlotModel.KindsDisjoint | runtime/src/lib.rs:769-800 | the cap word alone tells the three slot kinds apart; inline and static slots own no allocation |
| SlotModel.FreedIsOwned | runtime/src/lib.rs:890-899 | what the code's free releases, deciding by pointer and cap word, is what the slot owns |
| SlotModel.GrowthCapLeast | runtime/src/lib.rs:824-832 | a growing buffer for `min` bytes gets the least power of two that is at least `min` and at least 16 |
| StrSlot.Runtime.WriteStrSlot | runtime/src/lib.rs:840-868 | the slot holds the bytes, inline up to 23 of them and in a fresh heap buffer of the growth capacity beyond |
| StrSlot.Runtime.StrFree | runtime/src/lib.rs:890-899 | frees the buffer of a heap capacity and nothing for an inline or static one |
| StrSlot.Runtime.StrAlloc | runtime/src/lib.rs:872-884 | zero bytes are the null pointer; anything else is a fresh address with that many bytes, or refused |
| StrSlot.Runtime.FreeSlot | runtime/src/lib.rs:890-899 | releasing any valid slot through the code's free removes exactly what the slot owns |
| StrSlot.Runtime.Realloc | runtime/src/lib.rs:906-921 | allocates when there is nothing to move, frees when nothing is wanted, and otherwise keeps the bytes both sizes share at an address that replaces the old one |
| StrSlot.Runtime.StrConcat | runtime/src/lib.rs:984-1045 | the result slot holds the first string followed by the second: the all-zero triple when both are empty, inline up to 23 bytes, a fresh heap buffer beyond |
| StrSlot.Runtime.StrPush | runtime/src/lib.rs:1057-1205 | afterwards the slot holds its old content plus the suffix, from an inline, static or heap start and at every length; the old allocation is released or reused, never leaked |
| StrSlot.Runtime.PushInline | runtime/src/lib.rs:1074-1123 | an inline push stays inline up to 23 bytes and moves to a fresh heap buffer of the growth capacity beyond, although inline data overlaps the length and cap words |
| StrSlot.Runtime.PushStatic | runtime/src/lib.rs:1131-1190 | a static string is copied off read-only storage, into the slot itself when the result is short |
| StrSlot.Runtime.PushHeap | runtime/src/lib.rs:1161-1205 | a heap push reuses the buffer when it fits and otherwise moves to one at least twice as large |
| StrSlot.Runtime.EnsureHeap | runtime/src/lib.rs:1212-1234 | an inline slot, the empty one included, moves to a fresh heap buffer of the growth capacity with the same content; heap and static slots stay exactly as they are |
| StrSlot.Runtime.PushAll | runtime/src/lib.rs:1057-1205 | a run of pushes leaves the old content followed by all suffixes, and from any kind of slot its reallocations together move fewer bytes than twice the final length, or none; it stops early only when an allocation is refused or the text reaches 2^54 bytes |
| StrSlot.AmortisedGrowth | runtime/src/lib.rs:1161-1190 | over any run of growth steps from any heap slot the bytes moved stay below twice the final length |
| SlotLedger.StepRefines | runtime/src/lib.rs:787-1234 | every operation on a world of slots acts on the strings as the same operation on plain byte strings |
| SlotLedger.FreeDischarges | runtime/src/lib.rs:890-899 | the code's free of a slot discharges its allocation once and leaves every other string alone |
| SlotLedger.RunRefines | runtime/src/lib.rs:787-1234 | over any run of operations slots refine plain strings, each live allocation has exactly one owner, and once all slots are freed no allocation is left |
| SlotLedger.Session.Do | runtime/src/lib.rs:840-1234 | each operation run on real slots is a step of the ledger, or an allocation was refused, or the text to produce reaches 2^54 bytes |
| SlotLedger.Session.RunAll | runtime/src/lib.rs:840-1234 | a whole program over real slots leaves the byte strings it describes, and no allocation once it has freed every slot; it gives up only when an allocation is refused or at an operation whose text reaches 2^54 bytes |
| Formatters.NumeralRoundTrip | runtime/src/lib.rs:1272-1300 | the decimal numeral of an integer is canonical, reads back as that integer, and has at most 20 bytes for every i64 |
| Formatters.NumeralUnique | runtime/src/lib.rs:1272-1300 | a canonical numeral is the numeral of the integer it denotes |
| Formatters.IntToStr | runtime/src/lib.rs:1272-1300 | for every i64, the minimum included, the slot holds the numeral inline and owns nothing, so releasing it is a no-op |
| Formatters.ReprRoundTrip | runtime/src/lib.rs:1559-1628 | a decoder recovers every byte string from its escaped form |
| Formatters.ReprFits | runtime/src/lib.rs:1559-1628 | the escaped form is printable ASCII of at most 4 * len + 3 bytes |
| Formatters.ReprUnique | runtime/src/lib.rs:1559-1628 | the decoder reads nothing but renderings: whatever it accepts is the rendering of what it returns, so no byte is escaped that need not be |
| Formatters.BytesRepr | runtime/src/lib.rs:1559-1628 | the slot holds the escaped form in a buffer of exactly 4 * len + 3 bytes |
| Lines.LineOfJoin | runtime/src/lib.rs:626-741 | the lines cut from a stream are its newline-separated pieces, then empty lines for ever |
| Lines.JoinPieces | runtime/src/lib.rs:626-741 | every stream is its newline-free pieces joined by newlines |
| ReadLine.LineReader.ReadLineFrom | runtime/src/lib.rs:631-741 | however `read` cuts the stream into chunks and is interrupted, the slot holds the first line not yet returned, the bytes kept for later are exactly what follows it, and the accumulation buffer is released, on a read error too |
| ReadLine.LineReader.TakePending | runtime/src/lib.rs:631-741 | carried-over bytes either finish the line or all join it, as the protocol's step does |
| ReadLine.LineReader.ReadChunk | runtime/src/lib.rs:631-741 | one `read` either finishes the line, keeping at most 128 bytes past it, or makes progress, as the protocol's steps do |
| ReadLine.Grow | runtime/src/lib.rs:603-624 | the buffer doubles with its bytes kept, or the growth is refused |
| ReadLineProtocol.PendingIsStep | runtime/src/lib.rs:631-741 | what the reader does with carried-over bytes is one step of the protocol |
| ReadLineProtocol.ReadIsStep | runtime/src/lib.rs:631-741 | what the reader does with one `read` that does not fail is one step of the protocol: bytes, an interrupt or the end of the input |
| ReadLineProtocol.NextKeeps | runtime/src/lib.rs:536-749 | every atomic step of every thread keeps mutual exclusion, the 128-byte bound on pending bytes, and the correspondence with the stream |
| ReadLineProtocol.EveryCallGetsItsLine | runtime/src/lib.rs:536-749 | in every interleaving the k-th call to hold the lock returns the k-th piece, empty past the end; returned, pending and unread bytes always reassemble the stream |
| ReadLineProtocol.EveryStreamIsServed | runtime/src/lib.rs:536-749 | the same for every stream, without assuming how it was put together |
| Layout.MaxAlignFacts | ryo-core/src/types.rs:891-907 | the alignment of a field list is a power of two that every nonzero field alignment divides |
| Layout.StructLayoutSound | ryo-core/src/types.rs:891-907 | fields are aligned, disjoint and inside the struct, padding before a field is less than its alignment, and the size is a multiple of the alignment; fields with no alignment, the empty error set, included |
| Layout.StructLayoutLeast | ryo-core/src/types.rs:891-907 | no aligned placement of the fields in this order starts any field earlier or ends in a smaller size |
| Layout.EnumLayoutSound | ryo-core/src/types.rs:1154-1188 | payload fields are aligned, clear of the 4 tag bytes, disjoint within a variant and inside the enum; padding is less than the field's alignment after the first field and less than the payload's before it, and exactly when the first field's own bound holds |
| Layout.EnumLayoutLeast | ryo-core/src/types.rs:1154-1188 | no enum with a 4-byte tag starts a payload earlier, at the payload's alignment, or is smaller |
| Layout.FirstPadding | ryo-core/src/types.rs:1154-1188 | the padding after the tag is less than the first field's alignment if and only if no field needs more than 4 or the first one needs the most |
| Layout.TagPaddingWitness | ryo-core/src/types.rs:1154-1188 | a `bool` before an `int` in a payload is preceded by four bytes |
| HandleTable.Find | ryo-core/src/types.rs:524-597 | a probe with the query's hash finds a matching handle if the table holds one |
| HandleTable.Resize | ryo-core/src/types.rs:524-597 | rehashing every handle through the arena loses none and keeps the table searchable |
| TypeArena.SizeAlign | ryo-core/src/types.rs:1239-1256 | the words read back are the size and alignment the type was given, errors, error sets and unions included |
| TypeArena.RuntimeExtents | ryo-core/src/types.rs:1236-1256 | at the primitives' fixed ids: `str` and `bytes` take the 24 bytes of a runtime slot, a view two of its words, an `int` and a `float` one, a `bool` one byte and `void` none, with the word's alignment |
| TypeArena.StrThenInt | ryo-core/src/types.rs:1236-1256 | a struct of a `str` and an `int` has them at 0 and 24 and takes 32 bytes |
| TypeArena.IsCopy | ryo-core/src/types.rs:763-778 | the flag read back is the one computed when the type was defined |
| TypeArena.DefineKeeps | ryo-core/src/types.rs:997-1038 | defining a type at the end of the arenas keeps every earlier block readable and every field's block below its owner's |
| TypeArena.DefinedLayoutSound | ryo-core/src/types.rs:997-1188 | every defined type, nested to any depth, has a sound layout with bounded padding |
| TypeArena.ReadVariants | ryo-core/src/types.rs:441-462 | the two-cursor decoding yields the variants as they were defined |
| TypeArena.NeedsDropExact | ryo-core/src/types.rs:1261-1274 | for a type with no `void` in it the recursive walk answers yes exactly when a `str` or `bytes` is owned somewhere inside, and exactly when the type is not Copy |
| TypeArena.CopyExact | ryo-core/src/types.rs:763-778 | a type is Copy exactly when nothing in it, at any depth, is `void`, `str` or `bytes` |
| TypeArena.NeedsDropParts | ryo-core/src/types.rs:1261-1274 | for every type: it needs dropping exactly when opening enums and errors meets a `str`, a `bytes` or a struct that is not Copy |
| TypeArena.DropBetween | ryo-core/src/types.rs:1261-1274 | for every type: what owns heap storage is dropped, and what is dropped is not Copy |
| TypeArena.DropIsNotCopyIff | ryo-core/src/types.rs:763-778 | needs-drop equals not-Copy if and only if some part makes the type droppable or no `void` is met under enums and errors only |
| TypeArena.DropIsHeapIff | ryo-core/src/types.rs:1261-1274 | needs-drop equals owning heap storage if and only if something is owned or every struct met under enums and errors is free of `void` |
| Pool.VoidPayloadWitness | ryo-core/src/types.rs:1261-1274 | `E!void` for an error with no payload is neither Copy nor dropped |
| Pool.VoidFieldWitness | ryo-core/src/types.rs:1261-1274 | a struct of one `E!void` field needs dropping and owns nothing |
| TypeArena.EqCapableExact | ryo-core/src/types.rs:785-804 | a type is Eq-capable exactly when every part left after opening anonymous structs is, by its own kind or derive flag |
| Pool.StoredKeyExact | ryo-core/src/types.rs:524-579 | the words rehashed from a stored block are the words hashed for a query with the same field list |
| Pool.AnonEqExact | ryo-core/src/types.rs:543-568 | comparing a stored block with a query is equality of ordered (name, type) lists |
| Pool.InternPool.constructor | ryo-core/src/types.rs:605-680 | a new pool is consistent and the attribute words have their fixed ids 0 to 3 |
| Pool.InternPool.InternBytes | ryo-core/src/types.rs:1310-1346 | the id's payload is the argument; known bytes change nothing, new bytes get the next id, and every older payload stays; after a string that ends past 32 bits, calls may panic |
| Pool.InternPool.BytesPayload | ryo-core/src/types.rs:1348-1350 | reads the payload back, or panics for a last string that ends past 32 bits |
| Pool.InternPool.LayOut | ryo-core/src/types.rs:891-907 | the layout loop computes the offsets, size, alignment and Copy flag of the written order, or detects that the size exceeds 32 bits |
| Pool.InternPool.AnonStruct | ryo-core/src/types.rs:875-942 | the id's field list is the argument; a known list changes nothing, a new one is laid out and entered, and everything defined before is kept |
| Pool.InternPool.DeclareStruct | ryo-core/src/types.rs:953-967 | one undefined id per name |
| Pool.InternPool.DefineStruct | ryo-core/src/types.rs:997-1038 | exactly this id becomes defined, with these fields, flags and the layout of their shapes; a block at word 2^32 - 1 is written and leaves the id undefined |
| Pool.InternPool.ReadStruct | ryo-core/src/types.rs:1049-1077 | the view equals the definition, whatever was done in between |
| Pool.InternPool.DeclareEnum | ryo-core/src/types.rs:1093-1107 | one undefined id per name |
| Pool.InternPool.LayOutVariants | ryo-core/src/types.rs:1154-1188 | payload offsets, and the size and alignment of the whole enum, match the layout rules |
| Pool.InternPool.DefineEnum | ryo-core/src/types.rs:1128-1137 | refuses a second definition, no variants, duplicate names or overflow, and otherwise defines exactly this id |
| Pool.InternPool.DefineVariants | ryo-core/src/types.rs:1139-1217 | the same for every type with variants: enums, errors, error sets and unions |
| Pool.InternPool.EnumVariants | ryo-core/src/types.rs:441-462 | the variants read back equal the definition |
| Pool.InternPool.DeclareError | ryo-core/src/types/errors.rs:15-31 | one undefined id per name |
| Pool.InternPool.DefineError | ryo-core/src/types/errors.rs:33-43 | an error becomes a type with one variant, its payload |
| Pool.InternPool.ErrorUnion | ryo-core/src/types/errors.rs:107-139 | one union per (error set, success) pair, with an `Ok` payload of the success type and an `Err` payload of the error set; a new one has these names, one field `0` per variant and no flags |
| Pool.UnionKeepsNames | ryo-core/src/types/errors.rs:107-139 | a union keeps its variants and their names whatever is done later |
| Pool.InternPool.ErrorSet | ryo-core/src/types/errors.rs:45-105 | the single member, or the one set of these members; known members change nothing, and refusals are explained |
| Pool.InternPool.EmptyErrorSet | ryo-core/src/types/errors.rs:62-78 | the empty set has no variants, size 0 and alignment 0 |
| Pool.InternPool.ErrorSetMembers | ryo-core/src/types/errors.rs:155-175 | the members read back from behind the directory are the set's |
| Pool.CanonicalOverTime | ryo-core/src/types.rs:524-597 | for any hash function and after any later operations, two ids are equal exactly when their bytes, their ordered field lists, their declared names, their member lists or their (set, success) pairs are |
| Pool.ErrorSetsCanonical | ryo-core/src/types/errors.rs:45-105 | two calls for an error set, however far apart, give the same type exactly when they name the same members |
| JsonValidate.ParseStringExact | benchmarks/json_validate/json_validate.rs:32-72 | the string scanner stops at a position exactly when the bytes up to it are a JSON string |
| JsonValidate.ParseNumberComplete | benchmarks/json_validate/json_validate.rs:74-114 | maximal munch: a number not followed by a byte that could extend it is read to its end |
| JsonValidate.ParseValueSound | benchmarks/json_validate/json_validate.rs:129-234 | what the parser accepts has a derivation in the grammar |
| JsonValidate.ParseValueComplete | benchmarks/json_validate/json_validate.rs:129-234 | every derivation followed by a byte that ends it is accepted to its end |
| JsonValidate.ValidIffJsonText | benchmarks/json_validate/json_validate.rs:236-242 | the recogniser accepts exactly the JSON texts of sections 2 to 7 of RFC 8259 |
| JsonGrammar.Terminals | benchmarks/json_validate/json_validate.rs:6-72 | the byte tests are the white space, digits, hexadecimal digits, escape letters and literal names of RFC 8259 in ASCII |
| JsonValidate.ScanValue | benchmarks/json_validate/json_validate.rs:129-157 | the dispatch and the loops below it compute the recogniser's position, and terminate |
| JsonValidate.ScanArray | benchmarks/json_validate/json_validate.rs:159-187 | the array loop agrees with the recursive recogniser |
| JsonValidate.ScanObject | benchmarks/json_validate/json_validate.rs:189-234 | the object loop agrees with the recursive recogniser |
| JsonValidate.Validate | benchmarks/json_validate/json_validate.rs:236-242 | terminates on every byte string and returns true exactly for JSON texts |
| Spine.ChainSpine.Push | ryo-core/src/spine.rs:41-58 | adds one item at the end of the contents, spilling when the inline part is full |
| Spine.ChainSpine.Pop | ryo-core/src/spine.rs:61-70 | removes and returns the last item pushed, across spilling and refilling |
| Spine.ChainSpine.PopN | ryo-core/src/spine.rs:74-81 | takes the last n items off, in push order |
| Spine.ChainSpine.FoldRevUntil | ryo-core/src/spine.rs:90-101 | visits the items in reverse push order up to the first refusal |
| TirGraph.ReachSetExact | ryo-core/src/tir.rs:1039-1174 | the recursive reach set is reachability along operand and body-statement edges |
| TirGraph.ChildrenExact | ryo-core/src/tir.rs:1039-1174 | what an instruction refers to, shape by shape: operands; condition or bounds and body of a loop; condition, branches and every elif's condition and body; scrutinee and every arm's expression or statements |
| TirGraph.ChildrenInOrder | ryo-core/src/tir.rs:1099-1150 | an if announces its condition, then-statements, elifs and else-statements in this order, a match its scrutinee and then its arms, nothing else |
| TirGraph.ArmsJoin | ryo-core/src/tir.rs:1099-1131 | an expression arm announces its expression, a statement arm each of its statements once, and arms follow each other in order |
| TirGraph.ElifsJoin | ryo-core/src/tir.rs:1132-1150 | an elif announces its condition and then each of its statements once, and elifs follow each other in order |
| TirReach.ContainsReachable | ryo-core/src/tir.rs:1296-1331 | with its 32-slot stack and restart the probe terminates and answers plain reachability; a probe that finds nothing has popped all that is reachable, and over a tree each walk pops an instruction at most once |
| TirReach.ContainsReachableDeep | ryo-core/src/tir.rs:1339-1355 | the heap-backed probe answers the same, with the same bound on its pops |
| TreeShape.PopOnce | ryo-core/src/tir.rs:1293-1319 | over a forest, replacing the top of the stack by its children never brings a popped instruction back |
| TirReach.CollectReachableD | ryo-core/src/tir.rs:1249-1260 | adds exactly the reachable set at every depth up to the limit |
| TirReach.CollectReachableStack | ryo-core/src/tir.rs:1267-1281 | the continuation on the spilling stack adds the rest of the reachable set |
| TirReach.CollectReachable | ryo-core/src/tir.rs:1245-1247 | starting from an empty or child-closed set, adds exactly what is reachable |
| JumpPath.ValidateTreeShape | ryo-core/src/tir.rs:1184-1206 | the debug walk accepts a body exactly when its roots and edges form a forest |
| JumpPath.PathInside | ryo-core/src/tir.rs:1411-1420 | the jump path ends at its target and stays inside the body |
| JumpPath.RouteExists | ryo-core/src/tir.rs:1432-1511 | every target that the body reaches, statement or not, sits in it along some route |
| JumpPath.PathAvoidsUntaken | ryo-core/src/tir.rs:1411-1511 | the jump path is disjoint from every arm not taken on the way to it |
| JumpPath.OffPathHolds | ryo-core/src/tir.rs:1411-1511 | at every statement that the path enters, all other arms and the conditions of later elifs are among what is left out |
| JumpPath.CollectJumpPath | ryo-core/src/tir.rs:1432-1511 | collects the preceding statements, the enclosing statements, the conditions and bounds evaluated on the way and the target, and nothing else; a body that does not reach the target is collected whole and the target not found |
| JumpPath.LocatedExactly | ryo-core/src/tir.rs:1381-1409 | the answer is true if and only if the target is a statement or lies in one that is no loop and has no else branch |
| JumpPath.ConditionWitness | ryo-core/src/tir.rs:1432-1511 | the condition of an if with an else branch is collected together with that branch, and reported as not found |
| JumpPath.JumpPathRefs | ryo-core/src/tir.rs:1422-1430 | from an empty set and for every target: a reached one lies on a route, the set is exactly the jump path along it and holds no arm left out, and it is found exactly when the route locates it; one not reached is not found |
| Indent.OutputFaithful | ryo-frontend/src/indent.rs:28-113 | for every accepted input the markers balance and erasing them gives the input back |
| Indent.MarkersStand | ryo-frontend/src/indent.rs:28-113 | each marker stands right before the line break it belongs to, with its span, or at the end of the input as a Dedent with the last token's span |
| Indent.AcceptsExactly | ryo-frontend/src/indent.rs:28-130 | the pass fails exactly on indentation that is not tabs only, or on a dedent to a level that is not on the stack |
| Indent.StackHoldsOpen | ryo-frontend/src/indent.rs:28-113 | after acceptable lines the level stack holds exactly the base level and the levels of earlier lines that no later line has undercut |
| Indent.RefusesFirst | ryo-frontend/src/indent.rs:28-130 | the error is that of the first line that is not acceptable, at its line break: the first character that is no tab, a space told apart, or a level that is not open |
| Indent.LayoutRoundTrip | ryo-frontend/src/indent.rs:28-113 | rendering any tree of blocks, with any positive extra indentation per block and blank lines anywhere, yields tokens whose line breaks and brackets are those of the tree |
| Indent.ProcessTokens | ryo-frontend/src/indent.rs:28-113 | the token loop with its level stack computes the specified output or the specified error |
| Indent.ValidateIndentation | ryo-frontend/src/indent.rs:115-130 | the first character that is no tab decides the error |
| Stamp.MixInverts | ryo-core/src/artifact.rs:33-36 | each rotate-xor-multiply step can be undone: the old state, and the word, are recovered from the result |
| Stamp.MixInjective | ryo-core/src/artifact.rs:33-36 | different states, or different words, give different results |
| Stamp.OneWordChangesStamp | ryo-core/src/artifact.rs:20-26 | equal-length word sequences that differ in one word never end with the same stamp |
| Stamp.OneChunkChangesStamp | ryo-core/src/artifact.rs:39-53 | equal-length writes that differ within one 8-byte chunk never end with the same stamp |
| Stamp.LengthChangesStamp | ryo-core/src/artifact.rs:39-53 | writes whose zero-padded chunks are equal and whose lengths differ leave different stamps |
| Stamp.RunsCannotAlias | ryo-core/src/artifact.rs:39-53 | different sequences of writes fold in different words: adjacent byte runs cannot alias |
| Stamp.RestWord | ryo-core/src/artifact.rs:42-50 | the rest of a write is folded in as its bytes, least significant first, followed by zeros |
| Stamp.StampHasher.Add | ryo-core/src/artifact.rs:33-36 | one mixing step on the state |
| Stamp.StampHasher.Write | ryo-core/src/artifact.rs:39-53 | folds in every chunk, the zero-padded rest and the length tag |
| AstPretty.ScheduleAgrees | ryo-core/src/ast_pretty.rs:633-763 | the scheduled child list of every plain node spells what the recursive printer writes for its children, missing slice bounds included |
| AstTrees.RenderDraws | ryo-core/src/ast_pretty.rs:517-1066 | the recursive printer writes the drawing of the expression's tree of labels, captions and spans |
| AstTrees.PrintReadsBack | ryo-core/src/ast_pretty.rs:1-17 | the printed text of an expression, its texts free of line breaks, is read back line by line, one line per node, and by columns alone, as the expression's tree in source order |
| AstTrees.ConnectorsTell | ryo-core/src/ast_pretty.rs:128-134 | `├── ` stands exactly where a later sibling follows and `└── ` where none does, but for the pattern of an arm with an empty block |
| AstTrees.DecimalReads | ryo-core/src/ast_pretty.rs:927-952 | the numeral that captions an arm reads back as the arm's position and has no leading zero |
| Drawing.DrawingReads | ryo-core/src/ast_pretty.rs:5-17 | a drawing of any tree of labels without line breaks is read back as the tree: depth and open ancestors from the prefix, siblings from the connector |
| Drawing.BuildRows | ryo-core/src/ast_pretty.rs:5-17 | the columns of the lines alone determine the tree |
| AstPretty.WriteExpr | ryo-core/src/ast_pretty.rs:517-628 | the task-stack driver terminates and writes exactly the text of the recursive printer |
| AstPretty.EnterNode | ryo-core/src/ast_pretty.rs:534-624 | entering a node writes its header and leaves tasks that write its children and then restore the parent's prefix |
| AstPretty.Schedule | ryo-core/src/ast_pretty.rs:609-621 | children pushed in reverse come off the stack in source order |
| AstPretty.WriteExprChildren | ryo-core/src/ast_pretty.rs:769-925 | writes the children's text, delegating every expression back to the driver |
| AstPretty.WriteMatchArms | ryo-core/src/ast_pretty.rs:927-952 | writes every arm with its pattern and body under the arm's own prefix |
| AstPretty.WritePattern | ryo-core/src/ast_pretty.rs:969-1066 | writes the pattern's own tree, scalar children on lines of their own |
| ArchiveNames.FinalNames | ryo-backend/src/runtime_lib.rs:20-46 | a final name is an archive's, never a temporary's, and determines the hash |
| ArchiveNames.NamesRead | ryo-backend/src/runtime_lib.rs:20-46 | an archive is `libryo_runtime-`, something and `.a`, on Windows `ryo_runtime-`, something and `.lib`; a temporary is the same prefix with `.tmp.` anywhere behind it |
| ArchiveNames.TempNames | ryo-backend/src/runtime_lib.rs:20-46 | a temporary name is never an archive's and determines hash and process |
| CacheDir.ListArchives | ryo-backend/src/runtime_lib.rs:75-84 | lists exactly the archives, oldest first with ties by name, whatever the directory order |
| CacheDir.Cache.SweepStaleTempFiles | ryo-backend/src/runtime_lib.rs:60-73 | removes the regular files with temporary names and nothing else, unless a removal fails |
| CacheDir.Cache.EvictOldArchives | ryo-backend/src/runtime_lib.rs:75-102 | leaves min(4, n) archives: the current one and the newest others; touches nothing else |
| CacheDir.Cache.Extract | ryo-backend/src/runtime_lib.rs:108-143 | reuses an archive that is there, writes a missing one whole, refuses anything that is not a regular file, then sweeps and evicts as specified; what it hands out is a regular file if and only if one was there or no link was at the temporary name, and a link there sends the write, and nothing else, to its target |
| CacheDir.SweptOpens | ryo-backend/src/runtime_lib.rs:60-73 | the sweep changes no link's target, so where a link at the temporary name leads can be read off before the call |
| CacheProtocol.NextKeeps | ryo-backend/src/runtime_lib.rs:48-143 | every step of every process, crashes included, keeps the lock exclusive and files at final names complete unless they are written through a link |
| CacheProtocol.CacheSafety | ryo-backend/src/runtime_lib.rs:48-143 | from an unused cache with no torn archive and any links, in every state of every run, files at final names are complete except those written through a link; a process that was handed an archive holds the lock, with a regular file if and only if one was there or no link was at its temporary name when it took the lock, with at most four regular archives left and no evicted archive newer than another kept one; with no link at a temporary name to begin with, every archive handed out is a complete regular file |
| CacheProtocol.LinksNeverMade | ryo-backend/src/runtime_lib.rs:129-138 | no step makes a link; a rename only carries one from the temporary name to the final name |
| CacheProtocol.LinkWitness | ryo-backend/src/runtime_lib.rs:118-143 | from an unused cache with a link at a temporary name, a run overwrites the link's target, hands out the link as the archive and refuses the next request for it |
| CacheProtocol.HolderFreezesDirectory | ryo-backend/src/runtime_lib.rs:108-115 | while a process holds its archive no step of any process changes a file |
| CacheProtocol.StepFrame | ryo-backend/src/runtime_lib.rs:60-143 | only a link at the process's own temporary name takes a write elsewhere, and but for that place no step touches what is neither an archive nor a temporary file |
| CacheProtocol.EntriesKept | ryo-backend/src/runtime_lib.rs:60-143 | no step rewrites a file at a final name, unless a link leads there, or removes anything but a regular file, and a link goes only from the temporary name to the final one |

## Left out

- Containment cycles through error families: a family's member edges emit no diagnostic, so a cycle that the search closes at such an edge fails without an `InfiniteSize` report. Verdicts cover families; the reporting results are about cycles of field edges, and `InfiniteSizeIffCycle` about programs without families.
- The `derive(Eq)` check of the definer, which reports and never fails a definition.
- Type resolution reports (unknown names, duplicate fields and variants, error-union members) are modelled as well-formedness of a declaration, not as separate diagnostics.
- Inferred error unions in the intern pool: they have no layout and no view of their own here.
- Pool.InternPool.ErrorUnion: refuses when the block would start at word 2^32 - 1, where the original stores a union that reads as not defined.
- Pool.InternPool.ErrorSet: the same for a set with members.
- Pool.InternPool.AnonStruct: an anonymous struct whose block starts at word 2^32 - 1 counts as defined, as it reads in a release build; a debug build panics when it is viewed.
- The intern pool's debug-only definedness checks are preconditions: callers define a type before they query it.
- `next_multiple_of` past 32 bits: counted as a refused layout; the original panics or wraps, depending on build settings.
- Allocation requests of 2^55 bytes and more are taken to be refused by the allocator; a failed allocation ends the operation.
- A push whose suffix lies inside the string's own heap buffer: the suffix is a value here, so this aliasing is not covered.
- The line reader's atomics are sequentially consistent steps; no weak-memory effects.
- Floating-point formatting, UTF-8 validation, libc calls, command-line arguments and the environment.
- JumpPath.CollectJumpPath: what is collected in bodies that are not tree-shaped, which the debug walk refuses.
- Stack depth: the recursion limits appear only as the switch from recursion to a stack.
- AstPretty.WriteExpr: prefix lengths count characters, not UTF-8 bytes; literals, operators and spans are given as the text they print, and a statement as its head, its title line and the captioned lines, expressions, patterns and blocks below it.
- The cache protocol lets every write and removal fail but does not model the operating system's own durability guarantees, other programs that write into the directory, hard links, or two contents with one hash. Where a link leads is a place in the directory or elsewhere; a link to a place whose parent is missing counts as a failing write.
- Flow construction, cleanup placement, the ownership pass, semantic analysis, code generation, linking and the driver.
- AST builders, the diagnostics sink and the other benchmark programs would only add simple members.
