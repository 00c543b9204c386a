# Verified model of libapplegfx-vulkan's core

libapplegfx-vulkan lets a macOS guest draw through Vulkan. This project models the parts
of it that compute something intricate, in Dafny, and proves what each is for. Everything
is checked by `dafny verify dfyconfig.toml`.

**SPIR-V rewriting** (`spirv`, `signature`, `recognition`, `composition`, `machine`,
`meaning`, `theorem`, `triangle`, `vertex_output`, `emission`, `ssa`, `loads`, `layout`,
`function_layout`, `signature_layout`, `signature_size`, `unique_types`, `output_words`,
`samples`, `entrypoint`, `metadata_output`). The signature transform turns a shader entry
`%struct fn(%args)` into `void main()` with Input and Output variables. `signature.dfy`
holds the pass twice: as functions on instruction lists and as methods with the loops,
splice flags and fresh-id counter of the original, proved equal. `machine.dfy` is an
interpreter for SPIR-V modules whose ordinary operations, operand grammar and branch tests
are parameters, so theorems hold for every choice of them. On top of that:

- the output is stated exactly, instruction by instruction and in the numbers of the
  Khronos SPIR-V Specification: what is dropped, replaced and added, and how each
  interface variable is decorated; from the repository's `triangle_vertex.raw.spv` the
  pass makes, one for one, the 64 instructions of its `triangle_vertex.spv`;
- it preserves meaning, also where a converted pointer cast or constant is read, provided
  the semantics agrees with the replacement; `triangle.dfy` shows that the repository's
  own vertex module is covered;
- it keeps single assignment;
- parameters are defined before they are used exactly under a stated condition;
- the logical layout of section 2.4 of the Khronos SPIR-V Specification (sections of the
  module, and in each function parameters, label, leading variables, blocks) is kept
  exactly under a stated condition;
- the output fits the allocation exactly under a stated condition on counts;
- no type is declared twice (section 2.8) exactly under a stated condition;
- the words that are written parse back to the instructions all this is about, exactly
  when the name leaves the word count of OpEntryPoint below 2^16.

The code meets the last five only under their conditions; `samples.dfy` has a concrete
module for four that breaks it: a parameter cast at the head of the entry block, an
OpNoLine in front of a variable, eleven returns of eight members, and a function type from
nothing to void that is there already. The metadata-only rewriter writes into a buffer of
the original's size, and the same questions of contents, layout and size are answered for
it; its output on the vertex module is the repository's disassembly.

**LLVM bitstream** (`bits`, `bitstream`, `abbrev`, `records`, `blocks`, `walking`,
`delivery`, `formatrules`, `capacity`, `readers`, `blockinfo`, `metastrings`, `arena`).
The format is given as an encoder; the reader is proved to undo it at every level, up to
trees of nested blocks read under any choice of entering or skipping; `formatrules.dfy`
says of any stream what is accepted. `readers.dfy` is the reader as procedures that move a
shared cursor; `capacity.dfy` says exactly when its operand buffer suffices, and shows a
record that exceeds it. The tables gathered from BLOCKINFO blocks are shown to be those
with which later blocks decode. The arena of decoded operands is modelled by absolute
addresses: growing it moves it, and cached addresses go stale unless derived again.

**Builder and reflection** (`builder`, `builderruns`, `builderorder`, `builderprogram`,
`reflect`, `reflected`). Instructions emitted in any order end up in the order of a
module; deferred locals, nested rollback; reflection of descriptor bindings and its
interplay with the in-place binding shift.

**Rings** (`ring`, `ringprotocol`, `ringhost`). Guest and host as a state machine over a
circular buffer; the root channel's wrap-aware drain and the gathering of the compute and
display channels over scattered pages are its doorbell steps, which dispatch everything
that is pending, up to the budget, where no read fails.

**Stateful utilities** (`lru`, `recency`, `shadercache`, `retarget`, `retarget_text`,
`settle`). The shader cache, the target-triple retargeter and the display's settle latch.

Some proofs pass a function as a value, or gate a quantifier with a marker predicate such
as `At`, `Mark` or `Look`, so that the solver looks into a definition only where a step
needs it.

## Model

| member | source | states |
|---|---|---|
| Spirv.FrameEncode | src/air2spirv/spv_signature_transform.c:160-167 | framing the encoding of any instruction list gives the list back |
| Spirv.EncodeFrame | src/air2spirv/spv_signature_transform.c:281-288 | a word stream that frames is exactly the encoding of the instructions found |
| Spirv.PackStringRoundTrip | src/air2spirv/spv_entrypoint_rewrite.c:172-188 | a packed string compares equal to the original and to no other string |
| Spirv.StringEquals | src/air2spirv/spv_entrypoint_rewrite.c:132-157 | the byte loop accepts exactly the words that hold the string and its terminator |
| SignatureTransform.FrameWords | src/air2spirv/spv_signature_transform.c:280-288 | the walk finds the instructions, or rejects a zero or overlong word count |
| SignatureTransform.ScanModule | src/air2spirv/spv_signature_transform.c:289-331 | one walk collects capability, entry id, reusable types and constants, pointer types and lifetime operands |
| Recognition.ScanIs | src/air2spirv/spv_signature_transform.c:289-331 | what the scan finds, by opcode: Shader; the last function of the name, the last void, the last 32-bit unsigned type; a constant 0 of such a type; the first 64 pointer types and the operands of the first 16 lifetime markers |
| SignatureTransform.Analyse | src/air2spirv/spv_signature_transform.c:333-435 | a signature is found only within the limits on parameters and members, for the named function |
| SignatureTransform.ResolveSignature | src/air2spirv/spv_signature_transform.c:338-435 | the three searches resolve the signature, with every rejection of the original |
| Recognition.SignatureIs | src/air2spirv/spv_signature_transform.c:338-435 | the signature is read from the first definition of the entry function, its function type and its return type, with at most 8 parameters and 8 members; every rejection has one of the named causes |
| Recognition.RejectsExactly | src/air2spirv/spv_signature_transform.c:734-770 | an invalid argument is an empty name, a wrong magic, or a name that no OpName carries; success needs a memory model |
| SignatureTransform.Plan | src/air2spirv/spv_signature_transform.c:611-641 | planned ids are consecutive, at or above the bound and below the next id, in the order they are handed out |
| SignatureTransform.PlanIds | src/air2spirv/spv_signature_transform.c:471-479 | the counter hands out exactly the planned ids |
| SignatureTransform.LowerReturn | src/air2spirv/spv_signature_transform.c:1121-1146 | one extract and store per member with a fresh id each, or one store, then a void return |
| SignatureTransform.ParamLoads | src/air2spirv/spv_signature_transform.c:1083-1119 | the loads redefine the parameter ids found by re-walking the module |
| Recognition.ParametersAre | src/air2spirv/spv_signature_transform.c:1090-1112 | the parameter ids are those of the OpFunctionParameters right behind the first OpFunction of the entry's id, up to the number in its type |
| SignatureTransform.EmitOne | src/air2spirv/spv_signature_transform.c:857-1153 | one turn of the emit loop: conversions, splices, entry rewrite, drops, loads, returns, copies |
| SignatureTransform.EmitAll | src/air2spirv/spv_signature_transform.c:849-1154 | after each turn the output words are those of the emitted instructions |
| Composition.OutputConsistsOf | src/air2spirv/spv_signature_transform.c:849-1154 | the output as a collection: every instruction other than load, store and extract occurs as often as it stands for one of the input's (kept, converted, opened anew or returned from), and once more if it is one that is added; dropped are capabilities Linkage and Kernel, Kernel-only decorations, lifetime markers and the entry's parameters |
| Composition.DecoratedOnce | src/air2spirv/spv_signature_transform.c:695-731 | each interface variable has exactly one decoration: Position for the first output and VertexIndex for the first input of a vertex shader, locations in order for the others |
| Composition.BodyIs | src/air2spirv/spv_signature_transform.c:1083-1146 | the loads and the lowered return, operand by operand |
| Composition.GlobalsInOrder | src/air2spirv/spv_signature_transform.c:992-1042 | what a new type, constant or variable refers to is older than the pass or declared before it |
| VertexOutput.VertexRewritten | src/air2spirv/spv_signature_transform.c:734-1181 | from the instructions of triangle_vertex.raw.spv the pass makes exactly the 64 of triangle_vertex.spv, with bound 94 |
| SignatureTransform.Transform | src/air2spirv/spv_signature_transform.c:734-1181 | the whole pass on words, with its error results and the final fix-up of the bound, the output a growing sequence |
| MeaningTheorem.MeaningPreserved | src/air2spirv/spv_signature_transform.c:1044-1147 | for every semantics, accepted module and argument tuple: if the original entry returns v, the rewritten void entry with Input k holding argument k returns, Output k holds member k of v, and all other variables are as before; results of conversions in `trusted` may be read, each of which the semantics must give the meaning of its replacement |
| MeaningTheorem.MeaningWithoutConversions | src/air2spirv/spv_signature_transform.c:900-957 | the same for every semantics without exception, when nothing reads the result of a conversion |
| Triangle.TriangleAccepted | examples/triangle/out/triangle_vertex.raw.spv.dis:1-65 | the pass accepts the triangle's vertex module, in which a converted constant and a converted pointer cast are read, and the meaning theorem applies to it for every semantics that agrees with these two replacements |
| MeaningTheorem.NoEarlyReturn | src/air2spirv/spv_signature_transform.c:1044-1147 | the rewritten entry returns only if the original has stopped running |
| Meaning.SimRun | src/air2spirv/spv_signature_transform.c:1066-1152 | every run of the original from related states is matched by a run of the images of its instructions |
| SsaKept.SsaPreserved | src/air2spirv/spv_signature_transform.c:1083-1164 | ids defined at most once stay so; each id of the output is one of the input's or a fresh one at or above the old bound; all are below the new bound |
| LoadsFirst.ParametersLoadedFirst | src/air2spirv/spv_signature_transform.c:935-1119 | in the rewritten entry everything that looks at a parameter stands behind its load, if and only if no variable and no kept conversion looks at one before the first instruction that takes the loads |
| Samples.CastFirstMisplaced | src/air2spirv/spv_signature_transform.c:935-957 | a module for which this fails: a live cast of a parameter at the head of the entry block |
| Emission.StepParts | src/air2spirv/spv_signature_transform.c:981-1152 | each turn appends a splice, the parameter loads and the instruction's own image, in that order |
| Emission.StepState | src/air2spirv/spv_signature_transform.c:842-849 | how the splice flags, the in-function flag and the id counter move |
| Layout.VariablesLead | src/air2spirv/spv_signature_transform.c:1074-1078 | in an ordered module only parameters, a label, variables and line instructions stand between an OpFunction and a variable of its function |
| FunctionLayout.StructureKept | src/air2spirv/spv_signature_transform.c:1066-1119 | functions stay well formed if and only if there is nothing to load or no line instruction stands in the header of the entry function or in front of one of its variables |
| SignatureLayout.LayoutKept | src/air2spirv/spv_signature_transform.c:958-1119 | for a module in order, sections and functions, the output is in order if and only if Shader is declared, a fragment module has no entry point yet, the types section opens with a type the pass looks for (if anything is decorated), and no line instruction stands in the entry header or in front of one of its variables (if anything is loaded) |
| Samples.LineFirstMisplaced | src/air2spirv/spv_signature_transform.c:1083-1084 | a module in order, which all the other conditions fit, whose rewriting is not: OpNoLine takes the load, and OpVariable follows |
| SignatureSize.SizeExact | src/air2spirv/spv_signature_transform.c:935-1146 | output length equals input length plus the growth of each instruction, the loads and everything inserted once |
| SignatureSize.FitsExactly | src/air2spirv/spv_signature_transform.c:773-790 | the output fits the allocation if and only if the words written for lowered returns, the entry header and pointer casts, the loads and everything inserted once come to at most the slack plus the words they replace or drop |
| SignatureSize.OutputFits | src/air2spirv/spv_signature_transform.c:773-790 | in particular when 63 words per value return plus one per live pointer cast stay within 507, that is up to eight returns |
| Samples.ManyReturnsOverflow | src/air2spirv/spv_signature_transform.c:773-790 | a family of modules that pass every check, with n returns of eight members: the output grows by 63n + 121 words and exceeds the allocation exactly from n = 11 |
| UniqueTypes.TypesStayUnique | src/air2spirv/spv_signature_transform.c:992-1042 | no two type declarations of the output have the same opcode and operands if and only if no two of the input have, the input has none of the types that the pass adds and, where pointer types count too, member types differ, parameter types differ and no pointer to an interface variable exists |
| UniqueTypes.TypesStayUniqueUnlessVoid | src/air2spirv/spv_signature_transform.c:992-1042 | without pointers, and where no type has the id 0: if and only if they were unique and no function type takes nothing and returns void |
| Samples.VoidTwiceRepeats | src/air2spirv/spv_signature_transform.c:992-1042 | a module with unique types whose rewriting declares the function type to void twice |
| OutputWords.OutputParses | src/air2spirv/spv_signature_transform.c:160-167 | from 32-bit words, as long as ids stay below 2^32: header with the new bound, then words that parse back to the emitted instructions if and only if the name leaves the word count of OpEntryPoint below 2^16; all are then 32-bit words |
| EntryPointRewrite.RewriteEntryPoint | src/air2spirv/spv_entrypoint_rewrite.c:190-417 | filter and splice loop into a buffer of fixed size, every write in bounds, with all error results |
| EntryPointRewrite.RewrittenSize | src/air2spirv/spv_entrypoint_rewrite.c:307-403 | exactly the kept words and the metadata are written |
| EntryPointRewrite.OutputFits | src/air2spirv/spv_entrypoint_rewrite.c:266-280 | the output leaves the 64 words of slack, for every input and name |
| EntryPointRewrite.LeftExactly | src/air2spirv/spv_entrypoint_rewrite.c:266-280 | how much of the buffer is left, to the word |
| MetadataOutput.OutputConsistsOf | src/air2spirv/spv_entrypoint_rewrite.c:300-403 | the output as a collection: everything but capabilities Linkage and Kernel and the decorations CPacked and LinkageAttributes, and once more what is inserted |
| MetadataOutput.VertexListed | examples/triangle/out/triangle_vertex.spv.dis:1-63 | the triangle's vertex module becomes what this disassembly lists |
| MetadataOutput.RejectsExactly | src/air2spirv/spv_entrypoint_rewrite.c:190-300 | which inputs give which of the two errors, and no others do |
| EntryPointRewrite.MetadataLayout | src/air2spirv/spv_entrypoint_rewrite.c:300-403 | an ordered module stays ordered if and only if it declares Shader and a fragment module has no entry point |
| Bitstream.Cursor.ReadBits | src/air/bitstream.c:24-60 | the byte-gathering read gives the little-endian value of the bit slice and advances by its width, or fails and stays |
| Bitstream.Cursor.ReadBits64 | src/air/bitstream.c:62-77 | two halves give the value of the whole slice |
| Bitstream.Cursor.ReadVbr | src/air/bitstream.c:79-135 | the shift-and-mask loop reads the concatenated data bits, truncated at the limit, and terminates |
| Bitstream.VbrRoundTrip | src/air/bitstream.c:79-135 | for every chunk width and every value below the limit, reading the encoding gives the value and consumes exactly its bits |
| FormatRules.VbrExactly | src/air/bitstream.c:79-135 | for any stream: a number is read if and only if there are chunks of 2 to 32 bits with fewer data bits before the last than the limit; its value is their data bits, cut at the limit |
| Bitstream.ManyRoundTrip | src/air/bitstream.c:79-135 | a sequence of encodings reads back as the sequence |
| Abbrev.PatternRoundTrip | src/air/abbrev.c:30-82 | DEFINE_ABBREV reads back every pattern, wherever it stands |
| FormatRules.OpExactly | src/air/abbrev.c:45-79 | for any stream: which bits are which operand of an abbreviation, and which are none |
| Abbrev.Char6Onto | src/air/abbrev.c:22-28 | the six-bit code is a bijection onto its alphabet |
| Abbrev.ValueRoundTrip | src/air/abbrev.c:126-164 | literal, fixed (also above 32 bits), VBR and char6 values read back |
| FormatRules.ValueExactly | src/air/abbrev.c:126-164 | for any stream: the value of a field by its operation, and where it fails |
| Records.RecordRoundTrip | src/air/abbrev.c:166-252 | for every pattern and every list of fields that fits it, decoding gives code, operands and blob and consumes exactly the bits |
| Records.RecordMeans | src/air/abbrev.c:184-251 | the first value is the code, as 32 bits; the others are the operands, in order |
| Capacity.OperandsFit | src/air/abbrev.c:189-210 | a decoded record has at most the buffer's 1024 operands if and only if no array length in it brings the operand count to 2^32 or more, where the check wraps around |
| Capacity.Overrun | src/air/abbrev.c:199 | a pattern and 42 bits that decode to 2^32 operands |
| Readers.ReadPattern | src/air/abbrev.c:35-81 | the definition loop reads the pattern that stands at the cursor |
| Readers.Table.Define | src/air/abbrev.c:30-82 | a definition is appended only if it parses and the table has room |
| Readers.Table.Copy | src/air/abbrev.c:110-121 | inherited entries come first, or nothing is copied |
| Readers.ReadValue | src/air/abbrev.c:126-164 | one value by its operation |
| Readers.ReadRecord | src/air/abbrev.c:166-252 | the decode loop reads the record that stands at the cursor, with its capacity checks |
| Blocks.PeekIsEnter | src/air/block_reader.c:125-147 | on any stream, the peeked id is the id that entering reads |
| FormatRules.NextExactly | src/air/block_reader.c:87-218 | for any stream: what each abbreviation id means, and where reading fails |
| FormatRules.EnterExactly | src/air/block_reader.c:28-73 | for any stream: when a header is accepted, where the block ends and what it inherits |
| Blocks.ReaderAdvances | src/air/block_reader.c:87-218 | every step that is not a look at a sub-block moves the cursor forward, and so do enter and skip |
| Readers.Enter | src/air/block_reader.c:28-73 | header, size and inherited abbreviations |
| Readers.Skip | src/air/block_reader.c:75-83 | the cursor lands on the end of the block |
| Readers.Next | src/air/block_reader.c:87-218 | the next thing in a block; after a peek the cursor is where it was |
| Walking.WalkItems | src/air/block_reader.c:87-218 | walking the rest of a well-formed block sees its remaining items and ends at its end |
| Delivery.WalkEqualsSkip | src/air/block_reader.c:28-218 | for every well-formed tree and every choice of entering or skipping, the walk sees exactly the items in order and ends where skipping lands, the bit after the encoding |
| BlockInfo.ReadBlockInfo | src/air/bitcode_reader.c:628-701 | the loop is a walk; each block id gets, behind its earlier patterns, those defined while it was the target, up to 64 |
| BlockInfo.InfoTakesEffect | src/air/bitcode_reader.c:624-701 | the tables gathered from an encoded BLOCKINFO block are those its items spell, and a later block that is well formed under them is delivered item by item when read with them |
| BlockInfo.InstallInfo | src/air/bitcode_reader.c:628-701 | entering and reading the block where an encoding stands yields exactly those tables and ends on the bit after the encoding |
| BlockInfo.DefinitionsCapped | src/air/block_reader.c:148-166 | for any stream: a block read to its end has defined no more abbreviations than its table holds, so a BLOCKINFO block at most 64 in all |
| MetadataStrings.InlineAgrees | src/air/bitcode_reader.c:966-986 | the inline size decoder agrees with the VBR read in value and position whenever the latter succeeds |
| MetadataStrings.DecodeStrings | src/air/bitcode_reader.c:951-1011 | an encoded list of strings decodes to the list, behind the strings already there |
| MetadataStrings.BatchRoundTrip | src/air/bitcode_reader.c:920-1011 | the record of a batch, split at its size field, adds exactly the strings encoded in it |
| MetadataStrings.BatchCapped | src/air/bitcode_reader.c:920-1011 | the cap holds across batches, and no batch disturbs the strings before it, whatever the record |
| MetadataStrings.StringsExactly | src/air/bitcode_reader.c:951-1011 | how far a batch is read: up to 4096 strings, a length that does not read, or one beyond the characters; what was read stays |
| MetadataStrings.ReadStrings | src/air/bitcode_reader.c:920-1011 | one record: its checks, the split of the blob, and the loop that stops where table, characters or cap run out |
| Arena.OperandsSurvive | src/air/bitcode_reader.c:2071-2113 | wherever growth moves the arena, after the last loop each instruction's address reads the operands decoded for it; the ranges are 8-aligned in the arena, inside it and disjoint |
| Arena.StaleExactly | src/air/bitcode_reader.c:2097-2113 | without the last loop a cached address reads its operands if and only if the arena ends where it was when the address was taken (when the allocator gave no left memory back to it) |
| Arena.WithoutTheLoop | src/air/bitcode_reader.c:2097-2113 | a body whose cached address is invalid before the last loop and valid after it |
| Arena.FunctionBody.Reserve | src/air/bitcode_reader.c:257-279 | an aligned offset beyond what was used; if it does not fit, the bytes move to a new base and the old addresses are gone |
| Arena.FunctionBody.GrowTo | src/air/bitcode_reader.c:268-270 | doubling until the request fits |
| Arena.ReservedExactly | src/air/bitcode_reader.c:257-279 | nothing moves while a reservation fits; otherwise the capacity is the least doubling that holds it |
| Arena.FunctionBody.KeepOperands | src/air/bitcode_reader.c:2071-2093 | operands are copied and their address cached |
| Arena.FunctionBody.ResolveAll | src/air/bitcode_reader.c:2106-2110 | every address is derived again from its offset |
| Builder.SplicedIs | src/air2spv/spv_builder.c:262-281 | splicing the buffers gives the function stream with each function's locals in its slot; no segment is dropped |
| Builder.WordsVar | src/air2spv/spv_builder.c:212-223 | a further local lands at the end of the locals buffer and moves no mark |
| BuilderRuns.RunsAgree | src/air2spv/spv_builder.c:148-239 | after any run of emissions, marks, locals, snapshots, rewinds and commits the buffers are those of the drafted module |
| BuilderRuns.FinishParses | src/air2spv/spv_builder.c:241-292 | finish writes a header with the next id as bound and words that parse to the drafted module |
| BuilderRuns.FreshIds | src/air2spv/spv_builder.c:120-123 | over whole runs: an id that was handed out is not 0, is below the bound in the header, and is handed out once, rewinds or not |
| BuilderRuns.Partition | src/air2spv/spv_builder.c:57-91 | each section is the stable subsequence of what was routed to it |
| BuilderOrder.ModuleInOrder | src/air2spv/spv_builder.c:57-91 | in the module of any run, by opcode: capabilities and extensions, then what introduces the module, then decorations, then types, constants, undefined values and global variables, then code |
| BuilderOrder.ModuleInSections | src/air2spv/spv_builder.c:57-91 | with an ordered front and well-formed functions every instruction is in its section of section 2.4 |
| BuilderRuns.RollbackExact | src/air2spv/spv_builder.c:225-239 | rewinding to a snapshot leaves the words of stream and locals, their segments and so the spliced functions as if nothing had been emitted since, whatever was properly nested inside |
| BuilderProgram.SpvBuilder.EmitOp | src/air2spv/spv_builder.c:148-162 | header, masked to its halves, and operands go to the section of the opcode; what fits is parsed back |
| BuilderProgram.SpvBuilder.EmitOpString | src/air2spv/spv_builder.c:164-197 | operands around a packed string, under a masked header |
| BuilderProgram.SpvBuilder.MarkLocals | src/air2spv/spv_builder.c:199-210 | a new segment at the current ends |
| BuilderProgram.SpvBuilder.EmitLocalVar | src/air2spv/spv_builder.c:212-223 | refused before the first mark, else appended |
| BuilderProgram.SpvBuilder.RewindTo | src/air2spv/spv_builder.c:233-239 | truncation to the remembered lengths |
| BuilderProgram.SpvBuilder.FinishWords | src/air2spv/spv_builder.c:241-292 | header, sections in order, functions with spliced locals |
| Reflect.ReflectBindings | src/air2spv/spv_reflect.c:36-153 | the count of bindings found and the sorted prefix that fits |
| Reflected.BindingIs | src/air2spv/spv_reflect.c:64-130 | an id below 8192 has a binding if and only if its last variable points to an image, a sampler or a struct in StorageBuffer and has both decorations; set and binding are the last ones |
| Reflected.ReflectionIs | src/air2spv/spv_reflect.c:115-153 | as many as were found, and the first that fit, ascending by set and binding |
| Reflect.SortedIs | src/air2spv/spv_reflect.c:131-145 | the written prefix is a sorted permutation |
| Reflect.SortBindings | src/air2spv/spv_reflect.c:135-145 | the in-place insertion sort computes it |
| Reflect.ReflectShift | src/air2spv/spv_reflect.c:36-173 | reflecting shifted words adds the base to each binding and changes nothing else |
| Reflect.OffsetBindings | src/air2spv/spv_reflect.c:155-173 | exactly the binding literals of the parsed prefix change, in place; nothing when the magic is wrong |
| Reflect.NoCollision | src/air2spv/spv_reflect.c:36-173 | when the bindings reflected from vertex words are below the base, none of them is reflected from the shifted fragment words, which give the fragment's own, base higher |
| Lru.Inclusion | src/air2spirv/shader_cache.c:145-235 | on every trace the smaller cache holds a sublist of the larger (keys, values, recency) and has no more hits |
| Recency.RecentFirst | src/air2spirv/shader_cache.c:145-220 | on every trace the entries stand in the order of their last use, each with the value last put under its key |
| Recency.GivesUp | src/air2spirv/shader_cache.c:172-220 | an entry vanishes only when a new key is put into a full cache, and then it is the one used longest ago |
| Recency.EveryLookupCounts | src/air2spirv/shader_cache.c:145-170 | every lookup is a hit or a miss, a hit if and only if the key is there |
| Lru.InclusionLookup | src/air2spirv/shader_cache.c:145-170 | whatever the smaller cache answers, the larger answers the same |
| Lru.Conservation | src/air2spirv/shader_cache.c:171-235 | new keys equal entries plus evictions, and accepted buffers equal live plus freed |
| Lru.LiveOrFreedOnce | src/air2spirv/shader_cache.c:171-235 | a buffer handed over once is live or was freed, exactly once |
| ShaderCaches.ShaderCache.FindEntry | src/air2spirv/shader_cache.c:99-107 | the slot of a key, or none has it |
| ShaderCaches.ShaderCache.FindLru | src/air2spirv/shader_cache.c:109-120 | the least counter is the last slot in recency order |
| ShaderCaches.ShaderCache.Get | src/air2spirv/shader_cache.c:145-170 | refines the list: a hit moves to the front, a miss inserts nothing |
| ShaderCaches.ShaderCache.Put | src/air2spirv/shader_cache.c:172-220 | refines the list: replace, evict the last, or insert; frees exactly the displaced buffer |
| ShaderCaches.ShaderCache.Close | src/air2spirv/shader_cache.c:222-235 | frees exactly the live buffers |
| Ring.DrainsPrefix | src/dispatchers/channel_0_dispatcher.c:380-503 | a drain dispatches a prefix of the pending commands, at most the budget, stops early only where nothing is found, and leaves the pointer right behind it |
| Ring.HeaderRoundTrip | src/dispatchers/channel_0_dispatcher.c:420-432 | header fields and payload read back from a command's bytes |
| Ring.CommandIs | src/dispatchers/channel_0_dispatcher.c:396-470 | the command at a pointer, byte by byte; found if and only if its length is 12 to 4096, at most the ring, and its bytes can be read |
| RingProtocol.RunsAreSafe | src/dispatchers/channel_0_dispatcher.c:380-503 | on every run, however reads fail: dispatched followed by pending equals produced, across wrap |
| RingProtocol.AllDispatched | src/dispatchers/channel_0_dispatcher.c:380-503 | after enough working doorbells everything was dispatched once and the pointers meet |
| RingHost.RootIsRing | src/dispatchers/channel_0_dispatcher.c:396-460 | wrap-aware reads of the root ring are backed by the ring's bytes |
| RingHost.GatherIs | src/dispatchers/channel_compute_dispatcher.c:394-420 | the page-chunked gather is the per-byte circular read, also when the absolute pointer wraps |
| RingHost.ChannelIsRing | src/dispatchers/ring_common.c:88-165 | reads of compute and display channels are backed by the ring behind its page table, with pointers modulo 2^32 |
| RingHost.Gather | src/dispatchers/ring_common.c:135-165 | the chunk loop computes the gather |
| RingHost.ChannelDrain | src/dispatchers/channel_compute_dispatcher.c:316-451 | descriptor, drain loop, completion stamps and the read pointer that is published |
| RingHost.ChannelDrainIsSafe | src/dispatchers/channel_display_dispatcher.c:196-310 | with honest reads a prefix of the pending commands is dispatched, and the protocol invariant holds under the read pointer, which is published behind the write pointer, for every compute and display channel; when no read fails and the page table is filled in, the prefix is all that is pending, up to the budget |
| RingHost.DescriptorIs | src/dispatchers/ring_common.c:28-86 | where a channel's descriptor lies and which bytes are its pointers and its page table |
| RingHost.Protocol.DrainRing | src/dispatchers/channel_0_dispatcher.c:349-503 | the drain loop: log, stamps and read pointer |
| RingHost.Protocol.HandleWrite | src/doorbell.c:134-209 | shadow, arming, geometry, shared page and channel; ringing for the root channel through either doorbell is the protocol's doorbell step with wrap-aware reads, and ringing for channels 1 to 15 drains that channel |
| RingHost.DoorbellIsSafe | src/dispatchers/channel_0_dispatcher.c:349-503 | with honest reads that step dispatches a prefix of the pending commands and keeps dispatched followed by pending equal to produced; when no read fails, the prefix is all that is pending, up to the budget |
| RingHost.DoorbellsCatchUp | src/dispatchers/channel_0_dispatcher.c:349-503 | where DMA works, enough doorbells dispatch everything produced, once and in order, and the pointers meet |
| RingHost.GeometryIs | src/doorbell.c:145-209 | what each geometry register sets |
| RingHost.GeometryOrder | src/doorbell.c:164-209 | the ring base does not depend on the order of the two writes that set it |
| Retarget.ReplacedClean | src/air2spirv/bitcode_retarget.c:173-277 | no AIR triple is left anywhere in the output of either tier, not even across seams |
| RetargetText.SpanIs | src/air2spirv/bitcode_retarget.c:87-146 | a span starts exactly where air64, one to eight gap characters and apple-macosx do; it takes the least gap and every digit and dot behind |
| RetargetText.FoundIs | src/air2spirv/bitcode_retarget.c:87-146 | the search finds the first place where one starts |
| RetargetText.NewTriple | src/air2spirv/bitcode_retarget.c:195-277 | in place of every span stands spir64-unknown-vulkan1.3, in place padded with NULs |
| RetargetText.InPlaceExactly | src/air2spirv/bitcode_retarget.c:173-225 | in place if and only if every span has at least 24 bytes |
| Retarget.Local | src/air2spirv/bitcode_retarget.c:195-277 | every byte outside the triples is still there, moved only by earlier length changes |
| Retarget.InPlaceStays | src/air2spirv/bitcode_retarget.c:200-225 | in place, nothing outside the triples moves |
| Retarget.Lengths | src/air2spirv/bitcode_retarget.c:227-276 | exact output lengths of both tiers, within the allocation |
| Retarget.FindNext | src/air2spirv/bitcode_retarget.c:87-146 | the first triple at or after a position, least gap, with its version digits |
| Retarget.RetargetToSpirv | src/air2spirv/bitcode_retarget.c:148-277 | both tiers and both errors; the output is clean and has the stated length |
| Settle.NeverLost | src/display.c:210-217 | a signalled frame stays ready until a read presents it |
| Settle.QuietFrame | src/display.c:391-419 | the first read a settle time or more after the last signal presents the frame |
| Settle.PresentsExactly | src/display.c:391-419 | a waiting frame is presented if and only if there was no signal within the settle time, or frames have been held for eight settle times |
| Settle.NoEarlyFrame | src/display.c:391-419 | a frame is presented within the settle time of the last signal only after a hold of eight settle times |
| Settle.PresentedInTime | src/display.c:391-419 | with reads at most d apart, a held frame is presented within eight settle times plus d |
| Settle.Display.ReadFrame | src/display.c:374-420 | one read of the latch, live or not; a live read of a frame that has been quiet for the settle time presents it |
| Settle.Display.SignalFrameReady | src/display.c:210-217 | a signal stamps the time and marks the frame ready |

## Left out

- MeaningTheorem.MeaningPreserved: function calls, atomics, image accesses and other operations with side effects are pure operations of the interpreter; only loads, stores and branches act on state. What a conversion means is a hypothesis on the semantics, since the specification gives neither a pointer cast nor OpUndef a value.
- LoadsFirst.ParametersLoadedFirst: definition before use is stated for the parameters, which the pass redefines, by position in the entry function and not by dominance; other ids keep their places.
- SignatureTransform.Transform: the output is a growing sequence (`SignatureSize.FitsExactly` says when it fits the original's allocation); the id counter and the sizes do not wrap at 2^32, which `OutputWords.OutputParses` assumes.
- The comment at src/air2spirv/spv_signature_transform.c:690-691 leaves further inputs undecorated; the code gives each a location, and so does the model.
- Composition.OutputConsistsOf: loads, stores and extracts are stated by `Composition.BodyIs` and by meaning, not counted.
- Byte buffers whose length is not a multiple of four are rejected by both rewriters before anything else; the model starts from words.
- The comment at src/air/block_reader.c:45-47 says the size field excludes END_BLOCK; the code, and the format, include it, and so does the model.
- Readers.ReadRecord: the operand buffer is a sequence, so a record beyond its capacity is still read; `Capacity.OperandsFit` says exactly when that happens.
- Readers.Next: on failure the position of the cursor is not specified.
- Readers.Table.Define: on failure the position of the cursor is not specified.
- BlockInfo.ReadBlockInfo: a failed skip of a nested block ends the walk, where the original goes on from wherever the cursor is.
- The format lets a BLOCKINFO block define any number of abbreviations; the code refuses more than 64 in all (`BlockInfo.DefinitionsCapped`), even if each block id has fewer.
- The other record walkers of src/air/bitcode_reader.c (types, constants, symbol table, metadata nodes) would repeat the same walk with other record layouts.
- Arena.OperandsSurvive: the instruction table, which lies in the same arena and is refreshed after each reservation, is a sequence; offsets do not wrap at 2^32 and allocation does not fail.
- Arena.StaleExactly: assumes that the allocator gave no part of memory the arena had left to its last allocation unless at the same base.
- RingHost.Protocol.HandleWrite: registers that are only logged, and reads of registers, are not modelled; command handlers are opaque and do not touch ring fields.
- Guest memory does not change during one drain.
- ShaderCaches.ShaderCache.Put: keys are the 32-byte digests; hashing of the inputs, and the 64-bit range of the use counter, are not modelled.
- Settle.Display.ReadFrame: the pixels, reading the render target back and the fallback when that fails are not modelled.
- Reflection of vertex inputs repeats the scan of `Reflect` with another decoration.
- Builder.SplicedIs: growth of the buffers and allocation failure are not modelled.
- Vulkan work, shader translation by an external compiler, metallib extraction, device lifecycle, logging and environment variables are not part of this model.
