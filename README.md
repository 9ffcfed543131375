# A Dafny model of the Wasm interop core of a Fuzzilli fork and its njs coverage runtime

The project models the parts of this JavaScript-engine fuzzer that are logic and not plumbing:

- **WebAssembly interop operations** (`WasmOperations`). These are the five FuzzIL operation kinds `InstantiateWasm`, `GetWasmExport`, `GetWasmMemory`, `WriteWasmMemory` and `GetWasmGlobal`. The model gives their payloads, declared signatures (inputs, outputs, inner outputs, attributes, required context) and opcode tags.
- **The Wasm instruction mutator** (`WasmMutator`). The class `WasmMutator.WasmMutator` owns a dead-code analyzer. `BeginMutation` resets it and `CanMutate` advances it once per instruction. `Mutate` re-emits an accepted instruction with a freshly drawn payload and adopts anything else unchanged. Random draws are parameters constrained to the ranges the source draws from.
- **The Wasm lifter** (`WasmLifter`). These are the five string builders that turn operand text and payload into a JavaScript expression. Each has a decoder as its partner, and a round-trip lemma proves that the operands and the payload can be recovered from the text. For the instantiation this needs operand texts without commas: `ImportTextsWithCommaCollide` shows two import lists that lift to the same text.
- **Code-generator lookup** (`CodeGenerators`). The registry is the concatenation of four generator groups. `get` is a first-match search that is fatal on an unknown name.
- **Wasm integer semantics** (`WasmIntegers`, `WasmNumericalTests`). A bit-vector reference semantics of the i32/i64 binary, unary and comparison operators, after section 4.3.2 (Integer Operations) of the WebAssembly Core Specification. The integer test vectors of `WasmNumericalTests` are proved against it.
- **The SanitizerCoverage edge-guard runtime** of the njs target, in its three copies: `NjsCoverage`, `NjsFuzzilli` and `NjsFuzzilliModule`. Each is a class whose fields are the C globals `__edges_start`, `__edges_stop` and `__shmem`. The guard section is an array of `uint32` slots and a pointer into it is an index, with NULL as `None`. The shared numbering and bitmap semantics live in `EdgeGuards`.

The coverage methods are proved against specification functions (`EdgeGuards.Renumbered`, `EdgeGuards.Traced`). Lemmas in `EdgeGuards` then prove what the source promises about those functions:

- the numbering is consecutive and capped;
- tracing sets exactly one bit, and bits only go from 0 to 1;
- tracing is idempotent;
- a repeated init is skipped.

## Model

| member | source | states |
|---|---|---|
| WasmOperations.SignatureOf | Sources/Fuzzilli/FuzzIL/WasmOperations.swift:18-103 | every Wasm interop operation has at least one input, at most one output, no inner outputs, needs the JavaScript context, is pure exactly when it is not the memory write, and is a call exactly when it is the instantiation |
| WasmOperations.OpcodeOf | Sources/Fuzzilli/FuzzIL/WasmOperations.swift:21-102 | the opcode carries its operation, and it is the catch-all opcode exactly for non-Wasm operations |
| WasmOperations.InstantiateWasmSignature | Sources/Fuzzilli/FuzzIL/WasmOperations.swift:23-31 | `InstantiateWasm(numImports: k)` has k + 1 inputs, 1 output, 0 inner outputs, attributes {isPure, isCall} and the JavaScript context |
| WasmOperations.GetWasmExportSignature | Sources/Fuzzilli/FuzzIL/WasmOperations.swift:36-50 | 1 input, 1 output, pure, JavaScript context; the export name is kept as given |
| WasmOperations.GetWasmMemorySignature | Sources/Fuzzilli/FuzzIL/WasmOperations.swift:53-67 | 1 input, 1 output, pure, JavaScript context; the memory index is kept as given |
| WasmOperations.WriteWasmMemorySignature | Sources/Fuzzilli/FuzzIL/WasmOperations.swift:70-86 | 1 input, 0 outputs, no attributes, JavaScript context; offset and bytes are kept exactly as given |
| WasmOperations.GetWasmGlobalSignature | Sources/Fuzzilli/FuzzIL/WasmOperations.swift:89-103 | 1 input, 1 output, pure, JavaScript context; the global name is kept as given |
| WasmOperations.OpcodeInjective | Sources/Fuzzilli/FuzzIL/WasmOperations.swift:21-102 | equal opcodes mean equal operations, and each Wasm opcode case is exactly its operation kind |
| WasmOperations.WellFormed | Sources/Fuzzilli/FuzzIL/WasmOperations.swift:18-103 | the arity invariant: an instruction carries exactly as many inputs, and outputs plus inner outputs, as its operation declares |
| WasmOperations.InstantiateWellFormed | Sources/Fuzzilli/FuzzIL/WasmOperations.swift:23-28 | an instantiation of a module with k imports uses exactly the k + 1 inputs and 1 output it declares |
| WasmMutator.WasmMutator.BeginMutation | Sources/Fuzzilli/Mutators/WasmMutator.swift:23-25 | the analyzer is replaced by a fresh one with an empty history |
| WasmMutator.WasmMutator.CanMutate | Sources/Fuzzilli/Mutators/WasmMutator.swift:27-44 | the analyzer advances by exactly this instruction; the answer is true if and only if the position is live and the opcode is one of the five Wasm interop opcodes |
| WasmMutator.MutateInstantiateWasm | Sources/Fuzzilli/Mutators/WasmMutator.swift:63-69 | keeps input 0, takes 0..3 imports as the remaining inputs (arity 1..4), and yields a well-formed instantiation with one output |
| WasmMutator.MutateGetWasmExport | Sources/Fuzzilli/Mutators/WasmMutator.swift:71-76 | keeps input 0 as the only input and picks the export name from the 9-name pool |
| WasmMutator.MutateGetWasmMemory | Sources/Fuzzilli/Mutators/WasmMutator.swift:78-82 | keeps input 0 as the only input, with a memory index in 0..3 |
| WasmMutator.MutateWriteWasmMemory | Sources/Fuzzilli/Mutators/WasmMutator.swift:84-90 | keeps input 0, with offset in 0..1024, the drawn bytes (1..16 of them) and no outputs |
| WasmMutator.MutateGetWasmGlobal | Sources/Fuzzilli/Mutators/WasmMutator.swift:92-97 | keeps input 0 as the only input and picks the global name from the 7-name pool |
| WasmMutator.Mutate | Sources/Fuzzilli/Mutators/WasmMutator.swift:46-61 | a Wasm instruction becomes a well-formed instruction of the same kind that keeps input 0; any other instruction is adopted unchanged |
| WasmMutator.AcceptedIsRewritten | Sources/Fuzzilli/Mutators/WasmMutator.swift:27-61 | whatever `canMutate` accepts, `mutate` rewrites into a well-formed Wasm instruction that keeps input 0 |
| WasmMutator.NamePools | Sources/Fuzzilli/Mutators/WasmMutator.swift:73-94 | the export pool has 9 names and the global pool 7 |
| WasmLifter.DigitChar | Sources/Fuzzilli/Lifting/WasmLifter.swift:30 | a decimal digit renders as the matching digit character |
| WasmLifter.NatDecimal | Sources/Fuzzilli/Lifting/WasmLifter.swift:30 | the rendering of a natural number is a non-empty string of digits with no leading zero |
| WasmLifter.Decimal | Sources/Fuzzilli/Lifting/WasmLifter.swift:30 | an integer renders as a non-empty text containing no `,`, `]` or `)`, made of digits only when the integer is not negative |
| WasmLifter.ParseDecimalRoundTrip | Sources/Fuzzilli/Lifting/WasmLifter.swift:30 | parsing the decimal rendering of any integer gives the integer back, so rendering is injective |
| WasmLifter.ParseNatDecimal | Sources/Fuzzilli/Lifting/WasmLifter.swift:30 | parsing the digits of a natural number gives the number back |
| WasmLifter.SplitJoin | Sources/Fuzzilli/Lifting/WasmLifter.swift:35 | splitting a join on a separator that no part contains gives the parts back |
| WasmLifter.IndexOfAfterPrefix | Sources/Fuzzilli/Lifting/WasmLifter.swift:35 | the first separator after a separator-free prefix is found right after that prefix |
| WasmLifter.ByteTexts | Sources/Fuzzilli/Lifting/WasmLifter.swift:35 | there is one text per byte, in order, each the decimal rendering of that byte |
| WasmLifter.ParseAllByteTexts | Sources/Fuzzilli/Lifting/WasmLifter.swift:35 | parsing each byte text gives the bytes back, in order |
| WasmLifter.RenderBytesRoundTrip | Sources/Fuzzilli/Lifting/WasmLifter.swift:35 | the rendered byte list has exactly as many comma-separated items as there are bytes, item k is the decimal of byte k, and parsing the list gives the bytes back |
| WasmLifter.SpacedJoin | Sources/Fuzzilli/Lifting/WasmLifter.swift:19 | joining with a two-character separator `c sp` is joining with `c` after putting `sp` in front of every text |
| WasmLifter.JoinAsSpaced | Sources/Fuzzilli/Lifting/WasmLifter.swift:19 | the `", "`-join of the import texts is the `","`-join of the first text followed by the others, each with a leading space |
| WasmLifter.UnspacedSpaced | Sources/Fuzzilli/Lifting/WasmLifter.swift:19 | dropping the leading space again gives every text back |
| WasmLifter.SplitImportsOfJoin | Sources/Fuzzilli/Lifting/WasmLifter.swift:19 | reading back the `, `-joined import list gives the import texts back, in order, when none contains a comma |
| WasmLifter.ImportTextsWithCommaCollide | Sources/Fuzzilli/Lifting/WasmLifter.swift:18-21 | the import lists `["a, b"]` and `["a", "b"]` lift to the same text, so the list cannot be recovered from texts that contain `, ` |
| WasmLifter.LiftInstantiateWasm | Sources/Fuzzilli/Lifting/WasmLifter.swift:18-21 | the exact call text: `WebAssembly.instantiate(` + binary + `)` with no imports; otherwise `, { imports: {` + the import texts joined by `, ` + `} }` sits before the closing parenthesis (its partner is the decoder of `LiftInstantiateWasmRoundTrip`) |
| WasmLifter.DecodeInstantiateBodyOfShape | Sources/Fuzzilli/Lifting/WasmLifter.swift:19-20 | the argument text `binary, { imports: {list} }` splits at its first comma into the binary and the import list, when the binary has no comma |
| WasmLifter.LiftInstantiateWasmRoundTrip | Sources/Fuzzilli/Lifting/WasmLifter.swift:18-21 | decoding the lifted instantiation gives back the binary and every import text in order, including the empty import list, when no operand text contains a comma |
| WasmLifter.LiftGetWasmExport | Sources/Fuzzilli/Lifting/WasmLifter.swift:24-26 | the text is the instance, then `.exports['`, then the export name verbatim, then `']`, and nothing else |
| WasmLifter.LiftGetWasmExportRoundTrip | Sources/Fuzzilli/Lifting/WasmLifter.swift:24-26 | decoding the lifted access gives back the export name, whatever characters it contains |
| WasmLifter.LiftGetWasmGlobal | Sources/Fuzzilli/Lifting/WasmLifter.swift:41-43 | the text is the instance, then `.globals['`, then the global name verbatim, then `']`, and nothing else |
| WasmLifter.LiftGetWasmGlobalRoundTrip | Sources/Fuzzilli/Lifting/WasmLifter.swift:41-43 | decoding the lifted access gives back the global name, whatever characters it contains |
| WasmLifter.LiftGetWasmMemory | Sources/Fuzzilli/Lifting/WasmLifter.swift:29-31 | the text is the instance, then `.memory[`, then the decimal memory index, then `]`, and nothing else |
| WasmLifter.LiftWriteWasmMemory | Sources/Fuzzilli/Lifting/WasmLifter.swift:34-38 | the text is `new Uint8Array(` + memory + `.buffer).set([`, then the comma-separated byte list, then `], ` and the decimal offset, then `)` |
| WasmLifter.BetweenOfShape | Sources/Fuzzilli/Lifting/WasmLifter.swift:30-37 | the text between a known prefix and the closing character is recovered exactly |
| WasmLifter.LiftGetWasmMemoryRoundTrip | Sources/Fuzzilli/Lifting/WasmLifter.swift:29-31 | decoding `instance.memory[i]` gives back the memory index i |
| WasmLifter.RenderBytesHasNoBracket | Sources/Fuzzilli/Lifting/WasmLifter.swift:35 | the rendered byte list contains no `]` |
| WasmLifter.NoBracketInJoin | Sources/Fuzzilli/Lifting/WasmLifter.swift:35 | joining bracket-free texts with commas gives a bracket-free text |
| WasmLifter.DecodeWriteBodyOfShape | Sources/Fuzzilli/Lifting/WasmLifter.swift:37 | the argument text `bytes], offset` splits at the first `]` into the byte list and the offset |
| WasmLifter.LiftWriteWasmMemoryRoundTrip | Sources/Fuzzilli/Lifting/WasmLifter.swift:34-38 | decoding the `new Uint8Array(memory.buffer).set([...], offset)` text gives back the offset and every byte in order |
| CodeGenerators.AllCodeGenerators | Sources/Fuzzilli/CodeGen/CodeGenerators.swift:22-43 | the registry's length is the sum of the eight halves, and it holds the value group, the basic group, the object group and the Wasm group in that order, each group's first half before its second |
| CodeGenerators.Get | Sources/Fuzzilli/CodeGen/CodeGenerators.swift:46-53 | a generator is found if and only if some generator has the name; the one found has that name and is in the list; otherwise the result is fatal with message "Unknown code generator " + name |
| CodeGenerators.GetReturnsFirstMatch | Sources/Fuzzilli/CodeGen/CodeGenerators.swift:47-51 | the generator returned is the one at the first index carrying the name, so earlier duplicates shadow later ones |
| CodeGenerators.GetAppend | Sources/Fuzzilli/CodeGen/CodeGenerators.swift:47-52 | a lookup in a concatenation searches the left part first and the right part only when the left part has no match |
| CodeGenerators.ValueGroupTakesPrecedence | Sources/Fuzzilli/CodeGen/CodeGenerators.swift:39-53 | a name defined in the value group is always served from the value group |
| CodeGenerators.WasmGroupLookup | Sources/Fuzzilli/CodeGen/CodeGenerators.swift:39-53 | a name missing from the first three groups is looked up in the Wasm group alone |
| WasmIntegers.I32Binary | Tests/FuzzilliTests/WasmTests.swift:546-595 | an i32 binary operator traps exactly on a zero divisor of the four divisions, or on div_s of -2^31 by -1; otherwise it yields a value |
| WasmIntegers.I64Binary | Tests/FuzzilliTests/WasmTests.swift:546-595 | the same trap conditions at width 64 |
| WasmIntegers.Apply32 | Tests/FuzzilliTests/WasmTests.swift:648-691 | the value of each non-trapping i32 binary operator, after section 4.3.2 of the WebAssembly Core Specification; its values at the operands of the source's test vectors are proved in `WasmNumericalTests` |
| WasmIntegers.Apply64 | Tests/FuzzilliTests/WasmTests.swift:551-595 | the same for i64 |
| WasmIntegers.BitLength32 | Tests/FuzzilliTests/WasmTests.swift:864-865 | the bit length within n bits is at most n, zero for zero, and positive for a non-zero value |
| WasmIntegers.TrailingZeros32 | Tests/FuzzilliTests/WasmTests.swift:867-868 | the trailing-zero count within n bits is at most n, n for zero, and 0 for an odd value |
| WasmIntegers.OneBits32 | Tests/FuzzilliTests/WasmTests.swift:870-871 | the one-bit count within n bits is at most n, zero for zero, and positive for an odd value |
| WasmIntegers.I32Unary | Tests/FuzzilliTests/WasmTests.swift:912-919 | every count is at most 32; clz is 32 exactly for zero; ctz is 32 for zero and 0 for an odd value; popcnt is 0 for zero and positive for an odd value |
| WasmIntegers.I64Unary | Tests/FuzzilliTests/WasmTests.swift:864-871 | every count is at most 64; clz is 64 exactly for zero; ctz is 64 for zero; popcnt is 0 for zero |
| WasmIntegers.ZeroHalves | Tests/FuzzilliTests/WasmTests.swift:864-871 | a 64-bit value is zero exactly when both of its 32-bit halves are |
| WasmIntegers.LessSigned32 | Tests/FuzzilliTests/WasmTests.swift:1205 | signed less-than compares the two's complement readings of the patterns, so a pattern with the sign bit set lies below every pattern without it |
| WasmIntegers.LessSigned64 | Tests/FuzzilliTests/WasmTests.swift:1112 | the same at width 64 |
| WasmIntegers.Holds32 | Tests/FuzzilliTests/WasmTests.swift:1198-1235 | which i32 relation holds: eq and ne on the patterns, the `_u` relations on the unsigned values, the `_s` relations on the signed readings, with gt and ge as lt and le on swapped operands |
| WasmIntegers.Holds64 | Tests/FuzzilliTests/WasmTests.swift:1105-1142 | the same for i64 |
| WasmIntegers.I32Compare | Tests/FuzzilliTests/WasmTests.swift:1198-1235 | an i32 comparison yields 1 exactly when the relation holds (signed or unsigned reading as the operator says) and 0 exactly when it does not |
| WasmIntegers.I32Eqz | Tests/FuzzilliTests/WasmTests.swift:1232-1235 | eqz yields 1 exactly for zero and 0 otherwise |
| WasmIntegers.I64Compare | Tests/FuzzilliTests/WasmTests.swift:1105-1142 | the same for i64 comparisons |
| WasmIntegers.I64Eqz | Tests/FuzzilliTests/WasmTests.swift:1139-1142 | the same for i64 eqz |
| WasmIntegers.NegativeIsSignBit32 | Tests/FuzzilliTests/WasmTests.swift:1205 | the signed reading of a 32-bit pattern is negative exactly when its sign bit is set |
| WasmIntegers.NegativeIsSignBit64 | Tests/FuzzilliTests/WasmTests.swift:1112 | the same at width 64 |
| WasmIntegers.ShrSKeepsSign32 | Tests/FuzzilliTests/WasmTests.swift:682 | an arithmetic right shift by less than 32 keeps the sign: the signed reading of the result is negative exactly when that of the operand is |
| WasmIntegers.ShrUNonNegative32 | Tests/FuzzilliTests/WasmTests.swift:685 | a logical right shift by 1..31 yields a non-negative signed reading |
| WasmIntegers.ShrSKeepsSign64 | Tests/FuzzilliTests/WasmTests.swift:586 | the same at width 64 |
| WasmIntegers.ShrUNonNegative64 | Tests/FuzzilliTests/WasmTests.swift:589 | a logical right shift by 1..63 yields a non-negative signed reading |
| WasmNumericalTests.InputsAreTheTestLiterals | Tests/FuzzilliTests/WasmTests.swift:561-571 | the bit patterns used as operands are the two's complement encodings of the negative test literals |
| WasmNumericalTests.I64Arithmetic | Tests/FuzzilliTests/WasmTests.swift:551-558 | 1 + 1 = 2, 1 - 1 = 0 and 2 * 4 = 8 at i64 |
| WasmNumericalTests.I64Division | Tests/FuzzilliTests/WasmTests.swift:560-571 | div_s(-8, -4) = 2, div_u(-16, 4) = 4611686018427387900, rem_s(-17, 4) = -1 and rem_u(-17, 4) = 3 at i64 |
| WasmNumericalTests.I64Bitwise | Tests/FuzzilliTests/WasmTests.swift:573-580 | 1 & 3 = 1, 1 \| 4 = 5 and 3 ^ 5 = 6 at i64 |
| WasmNumericalTests.I64Shifts | Tests/FuzzilliTests/WasmTests.swift:582-595 | 3 << 5 = 96, shr_s(-3, 1) = -2, shr_u(-3, 1) = 9223372036854775806, rotl(-3, 1) = -5 and rotr(1, 1) = -2^63 at i64 |
| WasmNumericalTests.I32Arithmetic | Tests/FuzzilliTests/WasmTests.swift:648-655 | 1 + 1 = 2, 1 - 1 = 0 and 2 * 4 = 8 at i32 |
| WasmNumericalTests.I32Division | Tests/FuzzilliTests/WasmTests.swift:657-667 | div_s(-8, -4) = 2, div_u(-16, 4) = 1073741820, rem_s(-17, 4) = -1 and rem_u(-17, 4) = 3 at i32 |
| WasmNumericalTests.I32Bitwise | Tests/FuzzilliTests/WasmTests.swift:669-676 | 1 & 3 = 1, 1 \| 4 = 5 and 3 ^ 5 = 6 at i32 |
| WasmNumericalTests.I32Shifts | Tests/FuzzilliTests/WasmTests.swift:678-691 | 3 << 5 = 96, shr_s(-3, 1) = -2, shr_u(-3, 1) = 2147483646, rotl(-3, 1) = -5 and rotr(1, 1) = -2^31 at i32 |
| WasmNumericalTests.OneBitsOf130 | Tests/FuzzilliTests/WasmTests.swift:870-871 | 130 has two one bits |
| WasmNumericalTests.I64UnaryOperations | Tests/FuzzilliTests/WasmTests.swift:864-871 | clz(1) = 63, ctz(2) = 1 and popcnt(130) = 2 at i64 |
| WasmNumericalTests.I32UnaryOperations | Tests/FuzzilliTests/WasmTests.swift:912-919 | clz(1) = 31, ctz(2) = 1 and popcnt(130) = 2 at i32 |
| WasmNumericalTests.I64ComparisonOperations | Tests/FuzzilliTests/WasmTests.swift:1105-1142 | the i64 comparison vectors: -1 is below 2 signed but above it unsigned, for lt, gt, le and ge; eq, ne and eqz as printed |
| WasmNumericalTests.I32ComparisonOperations | Tests/FuzzilliTests/WasmTests.swift:1198-1235 | the same vectors at i32 |
| EdgeGuards.Renumbered | Targets/njs/mod/njs_coverage.c:433-437 | the numbering leaves the guard array's length unchanged |
| EdgeGuards.RenumberedValues | Targets/njs/mod/njs_coverage.c:433-437 | guard k of the range holds k + 1, within 1..cap, for every k below the smaller of the range length and the cap; guards outside the range or past the cap are unchanged; neighbouring numbered guards hold consecutive values |
| EdgeGuards.FirstGuardIsOne | Targets/njs/mod/njs_coverage.c:400-436 | after numbering a non-empty range its first guard is 1, so a later init on the same range is skipped |
| EdgeGuards.ShmemData.constructor | Targets/njs/mod/njs_coverage.h:20-23 | `struct shmem_data`: a region with the given bitmap and an edge count not yet written |
| EdgeGuards.Traced | Targets/njs/mod/njs_coverage.c:395 | setting an edge bit keeps the bitmap's length |
| EdgeGuards.SetBitSets | Targets/njs/mod/njs_coverage.c:395 | after or-ing in bit k, bit k is set |
| EdgeGuards.SetBitKeepsOthers | Targets/njs/mod/njs_coverage.c:395 | or-ing in bit k leaves every other bit of the byte as it was |
| EdgeGuards.SetBitKeepsOld | Targets/njs/mod/njs_coverage.c:395 | or-ing in a bit keeps every bit that was already set |
| EdgeGuards.TracedHits | Targets/njs/mod/njs_coverage.c:395 | after tracing index i, an edge j is hit if and only if it was hit before or j is i |
| EdgeGuards.TracedOnlySets | Targets/njs/mod/njs_coverage.c:395 | every byte of the traced bitmap contains the old byte: bits only go from 0 to 1 |
| EdgeGuards.TracedIdempotent | Targets/njs/mod/njs_coverage.c:393-396 | tracing the same index twice gives the same bitmap as tracing it once |
| EdgeGuards.And | Targets/njs/mod/njs_fuzzilli_module.c:232 | a bitwise AND is no larger than either operand |
| EdgeGuards.AndLowMask | Targets/njs/mod/njs_fuzzilli_module.c:232 | masking with 2^k - 1 keeps the low k bits, that is, it reduces modulo 2^k |
| EdgeGuards.MaskedIndexInBitmap | Targets/njs/mod/njs_fuzzilli_module.c:232-233 | a mask below MAX_EDGES keeps every masked guard value inside the bitmap |
| EdgeGuards.ResetCanOverrunBitmap | Targets/njs/mod/njs_coverage.c:433-437 | with the cap MAX_EDGES, a range of at least MAX_EDGES guards gives its last numbered guard the value MAX_EDGES, which selects a byte past the bitmap |
| EdgeGuards.IntendedCapStaysInBitmap | Targets/njs/mod/njs_coverage.c:392-397 | with the cap MAX_EDGES - 1 every guard the numbering writes selects a byte inside the bitmap |
| NjsCoverage.CharsetSize | Targets/njs/mod/njs_coverage.c:16 | the charset has 88 characters |
| NjsCoverage.GenerateRandomString | Targets/njs/mod/njs_coverage.c:15-23 | the buffer has length + 1 characters; character i is the charset entry picked by the i-th draw modulo the charset size, so every character is from the charset; the last one is NUL |
| NjsCoverage.CoverageRuntime.constructor | Targets/njs/mod/njs_coverage.c:392-437 | a runtime starts with no recorded range and no coverage region |
| NjsCoverage.CoverageRuntime.TracePcGuard | Targets/njs/mod/njs_coverage.c:392-397 | a zero guard changes nothing; otherwise the bitmap becomes `Traced` of the guard value and the guard becomes 0, with all other guards unchanged; the bitmap byte must be in bounds |
| NjsCoverage.CoverageRuntime.TracePcGuardInit | Targets/njs/mod/njs_coverage.c:399-431 | an empty range or a non-zero first guard is skipped with no effect; a second range exits with status -1 with no effect; otherwise the range and region are recorded, the guards become `Renumbered` with cap MAX_EDGES, and the edge count becomes stop - start modulo 2^32, not clamped |
| NjsCoverage.CoverageRuntime.ResetEdgeguards | Targets/njs/mod/njs_coverage.c:433-437 | the guards become `Renumbered` of the recorded range with cap MAX_EDGES; with no recorded range nothing changes |
| NjsFuzzilli.CoverageRuntime.constructor | Targets/njs/mod/njs_fuzzilli.c:20-21 | a runtime starts with no recorded range and no coverage region |
| NjsFuzzilli.CoverageRuntime.TracePcGuard | Targets/njs/mod/njs_fuzzilli.c:181-186 | as in njs_coverage.c: a zero guard changes nothing, otherwise exactly one bitmap bit is set and the guard is zeroed |
| NjsFuzzilli.CoverageRuntime.TracePcGuardInit | Targets/njs/mod/njs_fuzzilli.c:189-221 | skipped for an empty range or non-zero first guard; exit -1 on a second module; otherwise records the range, renumbers, and sets the edge count to stop - start modulo 2^32 |
| NjsFuzzilli.CoverageRuntime.ResetEdgeguards | Targets/njs/mod/njs_fuzzilli.c:224-228 | numbers the recorded range 1, 2, ... in address order up to MAX_EDGES guards |
| NjsFuzzilliModule.CoverageRuntime.constructor | Targets/njs/mod/njs_fuzzilli_module.c:179-180 | a runtime starts with no recorded range and no coverage region, with the given mask and hit counters |
| NjsFuzzilliModule.CoverageRuntime.TracePcGuard | Targets/njs/mod/njs_fuzzilli_module.c:227-239 | a zero guard changes nothing; otherwise, with index = guard & EDGE_COUNTER_MASK, the bitmap becomes `Traced` of the index, hit counter index goes up by one with all other counters unchanged, and the guard becomes 0 |
| NjsFuzzilliModule.CoverageRuntime.TracePcGuardInit | Targets/njs/mod/njs_fuzzilli_module.c:189-225 | skipped for an empty range or non-zero first guard; exit -1 on a second module; otherwise records the range, renumbers, and sets the edge count to stop - start modulo 2^32 |
| NjsFuzzilliModule.CoverageRuntime.ResetEdgeguards | Targets/njs/mod/njs_fuzzilli_module.c:183-187 | numbers the recorded range 1..N in order with N at most MAX_EDGES |

## Left out

- `DeadCodeAnalyzer` is not part of this model. Its state is the history of analysed instructions, and whether a position is dead is a judgement passed to the mutator's constructor.
- `ProgramBuilder` is not part of this model. The fresh output variable of a re-emitted instruction and the variables chosen as imports are parameters of the `Mutate*` functions. `adopt` is the identity on variables.
- The random draws of `mutate*` (`Int.random`, `Int64.random`, `UInt8.random`, `chooseUniform`) are parameters constrained by `DrawsInRange`.
- `Expression` kinds (`CallExpression`, `MemberExpression`) are not modelled; an expression is its text.
- The bodies of the code generators and the eight group arrays are defined in other files. The arrays are parameters of `AllCodeGenerators`, and a generator body is an uninterpreted type parameter.
- `fatalError` in `get` does not return. It is modelled as the `Fatal` result carrying the message.
- The floating-point tests of `WasmNumericalTests` are out of scope, because they rely on IEEE floating point.
- The Wasm module construction, the engine run and the printing in the tests are harness plumbing. Only the operator results they check are modelled.
- WasmIntegers.I32Unary: the converse directions (ctz is 32 only for zero, popcnt is 0 only for zero) are not proved, because the recursive bit counters make those general lemmas too costly for the solver.
- WasmIntegers.I64Unary: only clz's bound is stated in both directions; ctz and popcnt are stated for zero only, for the same reason.
- WasmIntegers.BitLength32, WasmIntegers.TrailingZeros32, WasmIntegers.OneBits32: bounds and the zero and odd cases only, not their exact values in general; the test values are proved by evaluation.
- Rotation inverses (rotl after rotr) and the wrap-around algebra of add, sub and mul are not stated as general lemmas. The source's test vectors pin them down at the points they use.
- WasmIntegers.I32Binary: div_s, rem_s and shr_s are computed on the bits (magnitudes, negation, a complemented shift). They are not proved equal to the standard's definitions through the signed reading (the quotient truncated toward zero, the remainder with the dividend's sign, the floor of a division by 2^k). General lemmas about 32-bit division exceed the solver's budget, so these operators are tied to `Signed32` only at the operands of the source's test vectors. The shift results keep their sign (`ShrSKeepsSign32`, `ShrUNonNegative32`).
- WasmIntegers.I64Binary: the same gap at width 64, for the same reason.
- WasmIntegers.Apply32, WasmIntegers.Apply64: no general contract; their values are pinned down at the operands of the source's test vectors only, for the reason given for I32Binary.
- The `shm_open`/`mmap` branch of `__sanitizer_cov_trace_pc_guard_init` is not modelled, and neither is the `getenv("SHM_ID")` choice, the `malloc` allocation or their failure exits. The coverage region is a parameter of `TracePcGuardInit`, with the size SHM_SIZE of either source. Its bitmap contents are arbitrary, as after `malloc`.
- `printf`, `puts` and `fprintf` output is not modelled.
- In the C code `_exit(-1)` ends the process. In the model it is the `Exited(-1)` outcome, with nothing changed.
- NjsFuzzilliModule.CoverageRuntime.TracePcGuard: `hit_count` lives inside the coverage region as `struct coverage_data`, whose layout is in no modelled file. It is a separate array of unbounded counters, so its aliasing with the bitmap and its counter width are not modelled. EDGE_COUNTER_MASK is defined in no modelled file, so it is a field of the runtime.
- Guard pointers are indices into one array of guard slots. The C code's pointer comparisons `x < __edges_stop` are comparisons of indices.
- The njs VM glue, the REPRL loop, test-case generation, memory checks and the rest of njs_fuzzilli.c and njs_fuzzilli_module.c are outside the modelled core.

## Findings

| source | as written | input that shows it | evidently intended | confidence | as-written member | corrected member |
|---|---|---|---|---|---|---|
| Targets/njs/mod/njs_coverage.c:433-437 (and njs_fuzzilli.c:224-228) | the reset loop numbers guards while `N < MAX_EDGES`, so the last value handed out is MAX_EDGES = (SHM_SIZE - 4) * 8; `trace_pc_guard` then writes `edges[MAX_EDGES / 8]` = `edges[SHM_SIZE - 4]`, one byte past the bitmap of the SHM_SIZE region | a module with at least MAX_EDGES = 8388576 guards, whose guard number MAX_EDGES is then hit | guard values 1..MAX_EDGES - 1 (or a bitmap index of value - 1), so that every index selects a byte of `edges` | not executed | EdgeGuards.ResetCanOverrunBitmap | EdgeGuards.IntendedCapStaysInBitmap |

The three runtime classes model the reset as written, with the cap MAX_EDGES. That is why their `TracePcGuard` requires the bitmap byte of the guard value to be in bounds. The finding covers njs_coverage.c and njs_fuzzilli.c, which index the bitmap with the guard value itself. njs_fuzzilli_module.c resets the same way (lines 183-187), but it masks the value with EDGE_COUNTER_MASK before indexing (line 232). No modelled file defines that mask, so whether the value MAX_EDGES overruns there depends on it; `MaskedIndexInBitmap` proves that any mask below MAX_EDGES keeps the index inside the bitmap.
