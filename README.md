# MIPS machine-language disassembler, modelled in Dafny

The model covers the core of a small MIPS disassembler. It reads a file of 32-character lines of '0'/'1'. Each line is one 32-bit MIPS instruction in binary, most significant bit first. The core's steps are:

- **Checking each line.** The line must be exactly 32 characters. Every character after the first must be '0' or '1'.
- **Splitting the line into fields.** The layout follows the R, I or J format of the instruction's opcode. The format is found by looking up the opcode field (bits 0..5) and, for R-type, the funct field (bits 26..31) in an opcode table.
- **Converting the fields.** Register fields are read as unsigned 5-bit numbers. The J target is read unsigned and multiplied by 4. I-type immediates go through the parser's own two's-complement routine, and a beq offset is also multiplied by 4.
- **Building the instruction.** The values are stored in an `Instruction` (opcode, rs, rt, rd, immediate). Out-of-range values are clamped to the sentinels `UNDEFINED` and `NumRegisters`.
- **Rendering the assembly text.** The text is the mnemonic, a tab, and the operands in the print slots the table assigns them. Registers print as `$n`. The beq offset and the J target print in hexadecimal.

The parser keeps the instructions in a list and hands them out one at a time.

The Dafny modules follow the source files:

| module | what it models |
|---|---|
| `Bits` | binary strings: `std::bitset`'s unsigned reading, two's complement, inversion |
| `Text` | `to_string` and the `hex` stream formatting that `toHex` uses |
| `Registers` | `RegisterTable` (`RegisterTable.h`) |
| `Opcodes` | the opcode table, as a parameter |
| `Instructions` | the `Instruction` class (`Instruction.cpp`) |
| `Layout` | the field constants of `MachLangParser.h` |
| `Conversion` | `convertBinToInt` as a function |
| `Fields` | the token extractors and `getOperands` as functions on the scratch fields |
| `Rendering` | `decode`, `decodeR`, `decodeI` and `decodeJ` as functions |
| `Pipeline` | the constructor's loop, line by line |
| `Parser` | the `MachLangParser` class |

`Parser` holds the state and the loops: the constructor, the token extractors that overwrite the scratch fields, `getOperands`, the three decode loops and `convertBinToInt`'s two loops. Each of these is a method proved equal to the function that specifies it. The properties are proved about those functions.

Where the code and the design notes disagree, this model follows the code, except where the code ends the process:

- **A refused line.** The design notes say that the instructions read before a refused line are discarded or left unused by the caller. In the code, a wrong length, a bad character or an unknown opcode ends the process with `exit(1)` (`MachLangParser.cpp:36`, `:53`, `:74`), so nothing is kept. Only a `getOperands` failure leaves the loop with `break` (`:82`) and keeps the instructions read so far, and `Pipeline.NoInvalidRegister` shows that this path is never taken. Where the code exits, the model instead keeps the prefix, stops and clears the format flag (see `exit(1)` below).
- **The most negative 16-bit field.** The design notes say `convertBinToInt` gives -32768 for `1000000000000000`. The code's add-one loop stops at the middle of the string, so this field gives -32512. In general, whenever the carry would cross into the upper half of the string, it is dropped. `Conversion.BinToInt16` and `Conversion.BinToIntBranch` state the exact deviation.
- **The J target.** It is read unsigned: `bitset<26>` keeps only the field and drops the appended "00". It is not sign-converted.
- **`exit(1)`.** The code prints a diagnostic and calls `exit(1)` for a wrong length, a bad character or an unknown opcode. The model instead stops the loop with the flag cleared. It records the reason and the 1-based line number in `myFailure`. A `getOperands` failure (only `break` in the code) is recorded the same way.

## Model

| member | source | states |
|---|---|---|
| Registers.RegisterTable.GetNum | RegisterTable.h:25-27 | the number is returned unchanged when it is a register (0..31), and the sentinel NumRegisters is returned exactly when it is not |
| Registers.RegisterTable.GetName | RegisterTable.h:29-31 | a register's name for 0..31; the empty string (the table's null) exactly for anything else |
| Registers.GetNumBoundaries | RegisterTable.h:9-10 | 0 and 31 resolve to themselves; 32 (the sentinel) and negative ints resolve to the sentinel |
| Opcodes.OpcodeTable.FindFrom | MachLangParser.cpp:66 | the first entry at or after k answering the opcode/funct pair: every earlier one does not answer, UNDEFINED if none does |
| Opcodes.OpcodeTable.GetOpcode | MachLangParser.cpp:66-75 | the result answers the pair and no earlier entry does; UNDEFINED exactly when no entry answers (the case the constructor refuses) |
| Opcodes.NonBinaryOpcodeIsUndefined | MachLangParser.cpp:40-75 | in a well-formed table an opcode field with a non-bit character (possible at index 0, which the alphabet check skips) is unknown |
| Instructions.ClampOpcode | Instruction.cpp:26-28 | the stored opcode is the argument exactly when it lies in 0..UNDEFINED, otherwise UNDEFINED |
| Instructions.ClampRegister | Instruction.cpp:30-40 | the stored register is the argument exactly when it lies in 0..NumRegisters, otherwise NumRegisters |
| Instructions.ClampOperands | Instruction.cpp:30-45 | every stored register lies in 0..NumRegisters; the immediate is stored with no range check |
| Instructions.ClampIdempotent | Instruction.cpp:20-47 | storing what setValues stored changes nothing: clamping is idempotent |
| Instructions.Instruction.Default | Instruction.cpp:5-10 | opcode UNDEFINED, all three registers at the sentinel, empty encoding and assembly |
| Instructions.Instruction.constructor | Instruction.cpp:12-18 | the fields are what setValues stores for the five arguments |
| Instructions.Instruction.SetValues | Instruction.cpp:20-47 | opcode and registers clamped to their sentinels, immediate verbatim, encoding and assembly untouched |
| Instructions.Instruction.SetEncoding | MachLangParser.cpp:58 | the encoding becomes the line, nothing else changes |
| Instructions.Instruction.SetAssembly | MachLangParser.cpp:86 | the assembly becomes the decoded text, nothing else changes |
| Layout.TilesReassemble | MachLangParser.h:74-91 | fields that follow one another without gap or overlap give back exactly the stretch of the line they cover |
| Layout.RLayoutReassembles | MachLangParser.h:74-83 | opcode, rs, rt, rd, shamt and funct tile the whole 32-character line |
| Layout.JLayoutReassembles | MachLangParser.h:85-86 | opcode and the 26-bit target tile the line |
| Layout.ILayoutReassembles | MachLangParser.h:88-91 | opcode, rs, rt and the 16-bit immediate tile the line |
| Bits.BitsetValue | MachLangParser.cpp:157-165 | a bitset of width n built from a string reads only its first n characters, so the value is below 2^n |
| Bits.TwosComplement | MachLangParser.cpp:464-466 | the reference reading the conversion claims: within -2^(n-1)..2^(n-1)-1, negative exactly when the sign bit is '1' |
| Bits.InvertUnsigned | MachLangParser.cpp:486-497 | flipping a binary string yields its ones' complement: the two values sum to 2^n - 1 |
| Bits.UnsignedConcat | MachLangParser.cpp:171-174 | appending bits shifts the prefix's value past them (used for the appended "00") |
| Conversion.AddOneFrom | MachLangParser.cpp:499-516 | the carry loop from a given index changes no character count: the string keeps its length |
| Conversion.AddOne | MachLangParser.cpp:499-516 | adding one from the last index with the loop's limit keeps the length; its value is stated by AddOneFromValue |
| Conversion.BinToInt | MachLangParser.cpp:464-528 | a leading '0' gives a value in 0..2^16-1, anything else a value in -(2^16-1)..0 |
| Conversion.CarryLimit | MachLangParser.cpp:499-516 | the lowest index the add-one loop can reach lies within the string |
| Conversion.CarryLimitHalf | MachLangParser.cpp:499-516 | the add-one loop visits exactly the indices j with 2j >= n: it stops at half the length, rounded up |
| Conversion.AddOneFromValue | MachLangParser.cpp:499-516 | the carry loop adds one at its start position unless every bit it may visit is '1', in which case they all clear and the carry is lost; bits below the limit never change |
| Conversion.AddOneStop | MachLangParser.cpp:504-509 | meeting a '0' sets it and stops: the value grows by that bit's weight |
| Conversion.AddOneCarry | MachLangParser.cpp:510-515 | meeting a '1' clears it and carries one place left, with the same overall effect as adding one or losing the carry |
| Conversion.AddOneField16 | MachLangParser.cpp:499-516 | on a 16-character field the loop adds one, unless bits 8..15 are all '1', when the carry is dropped |
| Conversion.BinToInt16 | MachLangParser.cpp:464-528 | convertBinToInt of a 16-bit field is its two's-complement value, except that with the sign bit set and bits 8..15 all '0' it is 256 too large |
| Conversion.BinToIntBranch | MachLangParser.cpp:464-528 | on a beq field with "00" appended it is the field's two's-complement value, except 128 too large when the sign bit is set and bits 9..15 are all '0' |
| Conversion.BranchCarry | MachLangParser.cpp:482-516 | after flipping field + "00", the carry runs through the two appended bits into the field and is lost when bits 9..15 are all '0' |
| Conversion.CarryIntoField | MachLangParser.cpp:499-516 | adding one to a 16-bit string followed by "11": the carry stops inside bits 9..15 or is lost |
| Conversion.OneField | MachLangParser.cpp:475-480 | 0000000000000001 reads as 1 |
| Conversion.LargestField | MachLangParser.cpp:475-480 | 0111111111111111 reads as 32767 |
| Conversion.AllOnesField | MachLangParser.cpp:482-525 | 1111111111111111 reads as -1 |
| Conversion.SignBitOnlyField | MachLangParser.cpp:482-525 | 1000000000000000 reads as -32512, not -32768, because the carry is dropped |
| Conversion.MinusTwoFiftySixField | MachLangParser.cpp:482-525 | 1111111100000000 reads as 0, not -256, because the carry is dropped |
| Text.DigitsAreDigits | MachLangParser.cpp:331-332 | the digits of n in a base up to 16 are all digits of that base: '0'..'9' and lower-case 'a'..'f', below the base |
| Text.DigitsRoundTrip | MachLangParser.cpp:331-332 | the digits of n in a base read back as n |
| Text.DecimalRoundTrip | MachLangParser.cpp:331-332 | to_string loses nothing: reading the decimal text back gives the integer, negative ones included |
| Text.DecimalTextShape | MachLangParser.cpp:331-332 | to_string's text is not empty, starts with '-' exactly for a negative int, and holds only decimal digits after it |
| Text.ToHex | MachLangParser.cpp:455-462 | "0x" followed by text that reads back in base 16 as the int's 32-bit unsigned pattern; it starts with '0' only for the pattern zero |
| Text.ToHexDigits | MachLangParser.cpp:455-462 | everything after "0x" is a lower-case hexadecimal digit, and the text is "0x0" exactly when the 32-bit pattern is zero |
| Text.HexSmall | MachLangParser.cpp:455-462 | 16 prints as "0x10" and 0 as "0x0" |
| Text.HexNegative | MachLangParser.cpp:455-462 | -4 prints as its two's-complement pattern "0xfffffffc" |
| Fields.RegisterField | MachLangParser.cpp:152-165 | a 5-bit register field read through bitset<5> is its unsigned value, always a register number below 32 |
| Fields.JTarget | MachLangParser.cpp:168-175 | the J target is the unsigned 26-bit field times 4 (the appended "00" is cut off by bitset<26>), in 0..2^28 |
| Fields.RTokens | MachLangParser.cpp:149-166 | rs, rt, rd and shamt are the unsigned values of the 5-bit slices at 6, 11, 16 and 21, each a register number |
| Fields.ITokens | MachLangParser.cpp:177-205 | rs and rt become register numbers, rd keeps its old value, and a beq immediate is a multiple of 4 |
| Fields.TokensAfter | MachLangParser.cpp:114-147 | an unknown opcode changes no scratch field; only R-type writes rd; J-type writes only the immediate; every register field an R- or I-type line writes is a register number |
| Fields.OperandsOf | MachLangParser.cpp:207-284 | fails exactly when a used register role of an R- or I-type opcode holds no register; otherwise used roles get the register, unused roles the sentinel, the immediate its scratch value when used and 0 otherwise, and J-type only the immediate |
| Fields.OperandsIgnoreStaleScratch | MachLangParser.cpp:114-147 | getOperands reads only scratch fields the line's own extractor just wrote, so the previous line's leftovers never reach the operands |
| Fields.RegisterCheckNeverFails | MachLangParser.cpp:224-272 | on a 32-character line the register checks of getOperands always succeed |
| Fields.IImmediateValue | MachLangParser.cpp:192-205 | the I-type immediate is the field's two's-complement value, 256 too large in the dropped-carry case |
| Fields.BranchImmediateValue | MachLangParser.cpp:177-190 | the beq immediate is four times the field's two's-complement value, 512 too large in the dropped-carry case |
| Rendering.RegTextReadsBack | MachLangParser.cpp:331-332 | a register prints as '$' followed by a decimal text that reads back as the register number |
| Rendering.EmitIsJoin | MachLangParser.cpp:327-357 | the slot loop, which appends ", " after every slot but the last, builds exactly the slots joined by ", " |
| Rendering.EmitStep | MachLangParser.cpp:327-357 | one pass of the slot loop extends the text by that slot and its separator |
| Rendering.Render | MachLangParser.cpp:286-315 | decode returns the empty string exactly when the opcode has no format |
| Rendering.RenderRJoins | MachLangParser.cpp:317-360 | decodeR's text is the mnemonic, a tab and the slot texts joined by ", " |
| Rendering.RenderIForms | MachLangParser.cpp:378-453 | decodeI's three forms: with the immediate in slot 1 the slot texts follow one another with no separator; with it in slot 2 they are joined by ", "; otherwise only the mnemonic and the tab are printed |
| Rendering.RenderJShape | MachLangParser.cpp:362-376 | decodeJ prints the mnemonic and a tab, then "0x", then only lower-case hex digits |
| Rendering.RenderThreeRegisters | MachLangParser.cpp:317-360 | an R-type opcode with rd, rs, rt in slots 0, 1, 2 prints "name\t$rd, $rs, $rt" |
| Rendering.RenderShift | MachLangParser.cpp:317-360 | an R-type shift with rd, rt, shamt in slots 0, 1, 2 prints "name\t$rd, $rt, shamt" |
| Rendering.RenderLoadStore | MachLangParser.cpp:388-413 | an I-type opcode with 3 operands, rt in slot 0, the immediate in slot 1 and rs in slot 2 prints "name\t$rt, imm($rs)", the immediate in decimal |
| Rendering.RenderImmediate | MachLangParser.cpp:415-450 | an I-type opcode with rt, rs, imm in slots 0, 1, 2 prints "name\t$rt, $rs, imm", the immediate in hex for beq and in decimal otherwise |
| Rendering.RenderBranch | MachLangParser.cpp:430-437 | beq with rs, rt, offset in slots 0, 1, 2 prints "beq\t$rs, $rt, 0x..." |
| Rendering.RegisterTextExamples | MachLangParser.cpp:331-332 | registers 8, 9 and 10 print as "$8", "$9" and "$10" |
| Rendering.RenderAddExample | MachLangParser.cpp:317-360 | add with rd 8, rs 9, rt 10 prints "add\t$8, $9, $10" |
| Rendering.RenderJumpExample | MachLangParser.cpp:362-376 | a jump to 16 prints "j\t0x10" |
| Pipeline.Assemble | MachLangParser.cpp:77-87 | an accepted line's instruction keeps the line as its encoding and carries its own rendering as its assembly |
| Pipeline.DecodeLine | MachLangParser.cpp:28-87 | a line is refused for its length exactly when it is not 32 characters long |
| Pipeline.LineChecks | MachLangParser.cpp:38-75 | a 32-character line is refused for its alphabet exactly when a character after the first is not a bit; for its opcode exactly when the alphabet passes and the table knows no opcode; accepted exactly when both pass |
| Pipeline.AcceptedLine | MachLangParser.cpp:28-87 | an accepted line has 32 characters, only bits after index 0, a known opcode, its own encoding and its own rendering |
| Pipeline.OutcomesAppend | MachLangParser.cpp:26-88 | each line's outcome depends on that line alone |
| Pipeline.Parse | MachLangParser.cpp:26-91 | no more instructions than lines, none with the opcode UNDEFINED; the flag is set exactly when no refusal is recorded, and a recorded refusal names a line of the file |
| Pipeline.StoredOpcodesDefined | DisASM.cpp:36-41 | every stored instruction has a real opcode, so a caller that stops at the first UNDEFINED opcode lists them all |
| Pipeline.Collect | MachLangParser.cpp:26-88 | no more instructions than lines, and the format flag is set exactly when no refusal is recorded |
| Pipeline.FirstRejected | MachLangParser.cpp:26-88 | the first refused line: every line before it is accepted |
| Pipeline.CollectShape | MachLangParser.cpp:26-89 | the parse is the instructions of the lines before the first refused one, in order; the flag is set exactly when no line is refused; otherwise the first refused line is reported with its reason and 1-based number |
| Pipeline.CollectStep | MachLangParser.cpp:28-88 | one pass of the loop: an accepted line appends its instruction, a refused line ends the parse with what was collected before it |
| Pipeline.CollectDone | MachLangParser.cpp:26-91 | after the last line the parse is the collected list with the flag set and no failure |
| Pipeline.ParseAllAccepted | MachLangParser.cpp:85-87 | a file of accepted lines yields one instruction per line, the j-th from the j-th line, with the flag set |
| Pipeline.ParseWellFormedFile | MachLangParser.cpp:26-88 | a file whose every line has 32 characters, only bits after the first and a known opcode is parsed whole: one instruction per line, in order, the j-th being the j-th line's decoding, with the flag set |
| Pipeline.ParseStopsAtFailure | MachLangParser.cpp:31-83 | lines after the first refused one change neither the list, the flag nor the reported failure |
| Pipeline.ShortLineRejected | MachLangParser.cpp:28-37 | a 31-character line is refused for its length as line 1, with nothing collected |
| Pipeline.FirstCharacterSkipped | MachLangParser.cpp:40-75 | a bad first character passes the alphabet check and the line is refused for an unknown opcode instead |
| Pipeline.NoInvalidRegister | MachLangParser.cpp:77-83 | no line is ever refused for its registers |
| Pipeline.AcceptedInstructionFields | MachLangParser.cpp:77-87 | an accepted line's instruction holds a real opcode and exactly the operands getOperands produced, which clamping leaves unchanged |
| Parser.MachLangParser.constructor | MachLangParser.cpp:6-92 | the list, flag and failure are the line-by-line parse of the input, and the cursor starts at 0; the object is valid, so no stored instruction has the opcode UNDEFINED |
| Parser.MachLangParser.ParseLines | MachLangParser.cpp:26-88 | the loop leaves exactly the line-by-line parse of the outcomes |
| Parser.MachLangParser.Record | MachLangParser.cpp:79-87 | an accepted line's instruction is appended and the loop invariant extends by one line; a refused line completes the parse |
| Parser.MachLangParser.ParseLine | MachLangParser.cpp:28-87 | one pass over a line produces that line's outcome, and an accepted line leaves the instruction holding what is appended |
| Parser.MachLangParser.IsFormatCorrect | MachLangParser.h:41 | true exactly when no line was refused |
| Parser.MachLangParser.GetNextInstruction | MachLangParser.cpp:100-112 | the instruction under the cursor, advancing it; once the list is exhausted, the default instruction with the cursor unmoved; the list never changes; the opcode is UNDEFINED exactly when the list is exhausted, which is what the driver loop at DisASM.cpp:38 relies on |
| Parser.MachLangParser.GetTokens | MachLangParser.cpp:114-147 | the opcode and funct fields, and the scratch fields as the line's format leaves them (no change for an unknown opcode) |
| Parser.MachLangParser.GetRTokens | MachLangParser.cpp:149-166 | the four 5-bit fields at 6, 11, 16, 21 as text and as their unsigned values |
| Parser.MachLangParser.GetJTokens | MachLangParser.cpp:168-175 | only the immediate changes, to the J target |
| Parser.MachLangParser.GetBranchITokens | MachLangParser.cpp:177-190 | rs and rt from their fields, the immediate as the converted field with "00" times 4; rd kept |
| Parser.MachLangParser.GetITokens | MachLangParser.cpp:192-205 | rs and rt from their fields, the immediate converted; rd kept |
| Parser.MachLangParser.GetOperands | MachLangParser.cpp:207-284 | succeeds exactly when the operands exist; on success the instruction holds their clamped values, on failure it is untouched |
| Parser.MachLangParser.Decode | MachLangParser.cpp:286-315 | the rendering of the instruction's format |
| Parser.MachLangParser.DecodeR | MachLangParser.cpp:317-360 | the mnemonic, a tab and the slot texts joined by ", " |
| Parser.MachLangParser.AppendRSlot | MachLangParser.cpp:329-350 | one loop pass appends exactly slot w's text |
| Parser.MachLangParser.DecodeJ | MachLangParser.cpp:362-376 | the mnemonic, a tab and the target in hex |
| Parser.MachLangParser.DecodeI | MachLangParser.cpp:378-453 | the load/store form when the immediate is in slot 1, the joined form when it is in slot 2, the mnemonic alone otherwise |
| Parser.MachLangParser.AppendLoadSlot | MachLangParser.cpp:393-411 | one load/store loop pass appends exactly slot w's text |
| Parser.MachLangParser.AppendISlot | MachLangParser.cpp:419-442 | one immediate-form loop pass appends exactly slot w's text |
| Parser.MachLangParser.ConvertBinToInt | MachLangParser.cpp:464-528 | the flip and carry loops compute the conversion whose values BinToInt16 and BinToIntBranch state |

## Left out

- Reading the file: the constructor takes the file's lines. The `in.bad()` branch (the file cannot be opened) is not modelled.
- Console output: the diagnostics printed before `exit(1)` are not modelled. `exit(1)` ends the loop with the format flag cleared, and the reason and line number are recorded in `myFailure` instead of the process ending.
- Parser.MachLangParser.constructor: a `getOperands` failure is recorded as an `InvalidRegister` refusal, where the source only breaks out of the loop. `Pipeline.NoInvalidRegister` shows it cannot happen on a 32-character line.
- Table contents: the opcode table's implementation (`OpcodeTable.h`/`OpcodeTable.cpp`) and the register names (`RegisterTable.cpp`) are not part of this model. Both tables are parameters. `getOpcode` is modelled as the first entry matching the opcode field, and for R-type entries also the funct field.
- Table allocation: `decode`, `decodeR`, `decodeI` and `decodeJ` each allocate a fresh `OpcodeTable` and never free it. The model uses the parser's own table, which has the same contents.
- The `numOperands` out-parameter: `getTokens` never writes it, and `getOperands` never reads it, so it is left out.
- `Instruction::getString` (`Instruction.cpp:49-58`): a debugging dump that the core never calls.
- The driver program that prints the listing (`DisASM.cpp`) is not part of this model. Only the stopping condition its loop relies on is stated, by `Pipeline.StoredOpcodesDefined` and `Parser.MachLangParser.GetNextInstruction`.
- Library internals: `std::bitset`, `to_string` and `stringstream` are modelled by their observable results only. `Bits.BitsetValue` gives the first characters read unsigned, `Text.DecimalText` the decimal text (`Text.DecimalTextShape`), and `Text.ToHex` the 32-bit pattern in lower-case hex without padding (`Text.ToHexDigits`).
- Instructions.Instruction.Default: the source leaves the immediate uninitialised, so the contract says nothing about it.
- Integer width: `int` overflow is not modelled, because no value the parser computes can overflow. The largest is the J target, 2^28 - 4.
- Parser.MachLangParser.ParseLines: the line outcomes are passed as a ghost argument. The loop proves that each pass computes the recorded outcome.
