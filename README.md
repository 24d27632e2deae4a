# An 8086 disassembler, modelled in Dafny

This project models the decoding core of an 8086 disassembler written in Go. The disassembler
reads a byte buffer with a cursor. It matches each opcode against the prefixes of the Intel 8086
machine-instruction decoding guide (Table 4-13 of the 8086 Family User's Manual) and calls a
per-instruction builder. Each builder reads the `[mod|reg|r/m]` byte, the displacement and the
immediate, and returns one line of NASM text or an error.

The model covers three snapshots of that core:

- the standalone first engine of `part1/main.go`;
- the `part1/pkg/decoder` package (decoder, MOV, data transfer, arithmetic, ADD, logic,
  string, conditional-jump, interrupt and processor-control builders);
- the later `performance-aware-programming/sim8086/pkg/decoder` data-transfer and arithmetic
  builders.

Each source file is one module. Modules share the cursor and the operand resolver.

- `Numeric` holds the fixed-width values and the two's-complement readings. It includes Go's
  `^s + 1` negation, with its wrap-around at -128 and -32768 written out.
- `Decimal` renders numbers in decimal and reads them back.
- `Outcomes` defines the result shape, `Done(value, pos)` or `Fail(error, pos)`, and the errors.
  Each error carries the instruction name its message quotes.
- `Engine` is `decoder.go`:
  - the register and effective-address tables;
  - `pattern`, with an integer bit length;
  - the pure specification of the operand resolver and the field readers;
  - the `Decoder` class, whose cursor the builder methods advance.
- `Forms` holds the instruction shapes the builders share, as specification functions:
  - reg/mem with a register;
  - immediate to reg/mem, under the S/W rule;
  - unary;
  - accumulator with an immediate.

  It also holds the package helpers the builders call.
- `Dispatch` holds the two first-match decode loops, as methods proved against a recursive
  specification of the run.

Every builder that reads bytes is a method on the decoder. Its postcondition ties its text, its
error and the new cursor to a specification function of the bytes and the old cursor. The
properties of those functions are stated in their own contracts and in lemmas: what is read, the
error cases, the text, and which fields it does and does not depend on.

Several builders appear word for word in more than one snapshot. Each is modelled once, where it
first appears:

- `part1/main.go`:
  - its `next`, `moveRegMemToReg` and `moveImmediateToRegOrMem` are `Engine.Decoder.Next`,
    `Move.MoveRegMemToReg` and `Move.MoveImmediateToRegOrMem`;
  - its `decode` is `Dispatch.Decode` on the `Standalone` snapshot.
- `part1/pkg/decoder/data-transfer.go`: its `moveImmediateToReg` and accumulator MOVs are `Move`'s.
- The sim8086 data-transfer file: its `moveImmediateToRegOrMem`, PUSH and POP are
  `DataTransfer`'s. Its `moveImmediateToReg` and accumulator MOVs are `Move`'s.
- The sim8086 arithmetic file: its `incRegOrMem` and `incReg` are `Arithmetic`'s.

Several helpers the builders call are not in the source files, so their contracts are derived
from the code that is shown:

- `decodeUnaryRegOrMem` and `decodeBinaryRegOrMem`;
- `parseOperand`/`decodeOperand` and `peekNext` (peeking reads `bytes[pos]` without moving);
- `regOrMemWithReg`, `immediateWithAccumulator` and `buildImmediateWithRegOrMemInstruction`;
- the `labels` field.

The unseen tables are handled as follows:

- `SegmentRegisterFieldEncoding` is taken to be es, cs, ss, ds for keys 0-3. A Go map gives the
  empty string for any other key.
- `CountByCL` and `LoopWhileZero` are taken to be 1.
- `JumpNames` and `JumpAlternativeNames` are parameters.

## Model

| member | source | states |
|---|---|---|
| `Numeric.LittleEndian` | part1/pkg/decoder/decoder.go:223 | the 16-bit value of two bytes has the first as its low byte and the second as its high byte |
| `Numeric.Int8` | part1/pkg/decoder/decoder.go:245 | the int8 reading of a byte lies in [-128, 128), is negative exactly when the top bit is set, and differs from the byte by 0 or 256 |
| `Numeric.Int16` | part1/pkg/decoder/decoder.go:274 | the int16 reading lies in [-32768, 32768), is negative exactly when bit 15 is set, and differs from the value by 0 or 65536 |
| `Numeric.Negate8` | part1/pkg/decoder/decoder.go:248 | `^s + 1` on an int8 is the magnitude of every negative value except -128, which stays -128 |
| `Numeric.Negate16` | part1/pkg/decoder/decoder.go:276 | `^s + 1` on an int16 is the magnitude of every negative value except -32768, which stays -32768 |
| `Decimal.NatToString` | part1/pkg/decoder/decoder.go:224 | the decimal numeral is non-empty and is a single digit exactly for values below 10 |
| `Decimal.NatToStringDigits` | part1/pkg/decoder/decoder.go:224 | the numeral is all digits and starts with `0` only for zero |
| `Decimal.IntToString` | part1/pkg/decoder/decoder.go:248 | a non-negative value prints as its unsigned numeral; a negative one needs a sign and at least one digit |
| `Decimal.IntToStringRoundTrip` | part1/pkg/decoder/decoder.go:248 | a signed numeral reads back as the integer: `-` and the magnitude's digits when negative, the digits alone otherwise |
| `Decimal.IntToStringSign` | part1/pkg/decoder/decoder.go:248 | a signed numeral starts with `-` exactly for negative values |
| `Decimal.NatToStringRoundTrip` | part1/pkg/decoder/decoder.go:224 | a rendered numeral is all digits and reads back as the number |
| `Decimal.NatToStringInjective` | part1/pkg/decoder/decoder.go:224 | distinct numbers render as distinct numerals |
| `Decimal.IntToStringInjective` | part1/pkg/decoder/decoder.go:248 | distinct integers render as distinct numerals, signs included |
| `Engine.RegisterName` | part1/pkg/decoder/decoder.go:74-94 | the REG/RM name comes from the byte table when W=0 and the word table when W=1 |
| `Engine.RegisterNameInjective` | part1/pkg/decoder/decoder.go:74-94 | a register name determines both the field value and the width table it came from |
| `Engine.ParseOperand` | part1/pkg/decoder/logic.go:17 | MOD, REG and R/M are the 2-3-3 bit fields of the byte: they reassemble to it |
| `Engine.OperandByte` | part1/pkg/decoder/logic.go:17 | the inverse of ParseOperand: the byte built from any MOD, REG and R/M parses back to those fields |
| `Engine.BitLength` | part1/pkg/decoder/decoder.go:188 | the bit length k of a non-zero pattern lies in 1..8 with 2^(k-1) <= p < 2^k (floor(log2 p) + 1 in integers) |
| `Engine.PatternRange` | part1/pkg/decoder/decoder.go:185-193 | `pattern(b, p)` holds exactly for the bytes whose top BitLength(p) bits spell p, both directions |
| `Engine.PatternIgnoresLeadingZeros` | part1/pkg/decoder/decoder.go:158 | the pattern 0b0000010 tests only two bits, accepting exactly 0x80..0xBF |
| `Engine.DisplacementLength` | part1/pkg/decoder/decoder.go:211-289 | MOD=00 reads 2 bytes for R/M=110 and none otherwise, MOD=01 one, MOD=10 two, MOD=11 none |
| `Engine.RmOperand` | part1/pkg/decoder/decoder.go:211-303 | the R/M operand succeeds exactly when its displacement bytes are present and advances by their number; a register for MOD=11; `[equation]` with nothing read for MOD=00 other than R/M=110; a failure is a missing-byte error of the instruction at the end of input |
| `Engine.DirectAddressText` | part1/pkg/decoder/decoder.go:211-229 | MOD=00 R/M=110 prints `[N]`, with N the unsigned little-endian word of the next two bytes |
| `Engine.Displacement8Text` | part1/pkg/decoder/decoder.go:239-259 | MOD=01 prints `[eq + d]` or `[eq - abs(d)]` for the int8 displacement d, `+ 0` included, and `[eq - -128]` for 0x80 |
| `Engine.Displacement16Text` | part1/pkg/decoder/decoder.go:261-281 | MOD=10 prints `[eq + d]` or `[eq - abs(d)]` for the int16 little-endian displacement, and `[eq - -32768]` for 0x8000 |
| `Engine.OperandPair` | part1/pkg/decoder/decoder.go:231-237 | D=1 makes the REG operand the destination and D=0 the source, around the R/M operand, with its reads and errors |
| `Engine.RegOrMem` | part1/pkg/decoder/decoder.go:196-309 | `decodeRegOrMem` reads exactly the displacement bytes MOD/RM call for; with MOD=11 both operands come from the W table, ordered by D, and nothing is read |
| `Engine.ReadImmediate` | part1/pkg/decoder/decoder.go:312-335 | two bytes low-first when isWord, otherwise one byte zero-extended; each missing byte is its own error and leaves the cursor at the end |
| `Engine.ReadAddress` | part1/pkg/decoder/decoder.go:338-361 | the same reading with the address errors |
| `Engine.Decoder.constructor` | part1/pkg/decoder/decoder.go:116-122 | a new decoder has the input, the cursor at 0, nothing decoded and no labels |
| `Engine.Decoder.Next` | part1/pkg/decoder/decoder.go:175-183 | inside the input `next` returns `bytes[pos]` and advances by one; at the end it returns `(0, false)` and does not move; `pos <= len(bytes)` is kept |
| `Engine.Decoder.PeekNext` | part1/pkg/decoder/string.go:13 | the byte under the cursor, present exactly when the cursor is inside the input; nothing moves |
| `Engine.Decoder.DecodeRegOrMem` | part1/pkg/decoder/decoder.go:196-309 | the method returns RegOrMem's pair or error and leaves the cursor where RegOrMem says |
| `Engine.Decoder.DecodeUnaryRegOrMem` | part1/pkg/decoder/logic.go:24 | returns the R/M operand of RmOperand and advances past its displacement |
| `Engine.Decoder.DecodeBinaryRegOrMem` | part1/pkg/decoder/arithmetic.go:50 | the part1 helper returns the same pair and error as decodeRegOrMem |
| `Engine.Decoder.DecodeNamedRegOrMem` | performance-aware-programming/sim8086/pkg/decoder/data-transfer.go:96-130 | the sim8086 helper returns the pair around a caller-named REG operand, ordered by D |
| `Engine.Decoder.DecodeField` | part1/pkg/decoder/decoder.go:312-361 | reads a one- or two-byte field, failing with the error of the first missing byte |
| `Engine.Decoder.DecodeImmediate` | part1/pkg/decoder/decoder.go:312-335 | returns ReadImmediate's value or error and its cursor |
| `Engine.Decoder.DecodeAddress` | part1/pkg/decoder/decoder.go:338-361 | returns ReadAddress's value or error and its cursor |
| `Forms.SizePrefix` | part1/pkg/decoder/arithmetic.go:105-109 | the size keyword and a space appear exactly when MOD != 11 |
| `Forms.Accumulator` | part1/pkg/decoder/move.go:209-228 | the accumulator is `al` for W=0 and `ax` for W=1 |
| `Forms.OrComment` | part1/pkg/decoder/move.go:129-147 | ` ; or S` follows exactly when the int16 reading S of the immediate is negative |
| `Forms.WordRegisterFormInjective` | part1/pkg/decoder/data-transfer.go:198-203 | a register form names the word register of opcode bits 0-2: equal texts exactly when those bits agree |
| `Forms.SegmentName` | part1/pkg/decoder/data-transfer.go:209 | the segment table names keys 0-3 and gives the empty string for 4-7 |
| `Forms.SegmentFormInjective` | part1/pkg/decoder/data-transfer.go:207-211 | PUSH/POP of a segment register names the register of opcode bits 3-5, injectively for 0-3; 4-7 print no register |
| `Forms.WordUnary` | part1/pkg/decoder/data-transfer.go:171-194 | PUSH/POP r/m: missing operand error; REG != ext is an error quoting the message's pattern; otherwise always `word X` and the cursor past the operand |
| `Forms.AluExtensionsDistinct` | part1/pkg/decoder/arithmetic.go:79-81 | ADD 000, ADC 010, SUB 101, SBB 011 and CMP 111 are distinct extensions, so REG identifies the operation |
| `Forms.RegOrMemPair` | part1/pkg/decoder/move.go:182-205 | `regOrMemWithReg` reads one operand byte and then decodeRegOrMem with W = bit 0 and D = bit 1; a missing operand byte is an error |
| `Forms.RegMemWithReg` | part1/pkg/decoder/arithmetic.go:29-56 | `mnemonic dest, src` from that pair, with its reads and errors |
| `Forms.ImmediateToRm` | part1/pkg/decoder/arithmetic.go:59-120 | REG must equal the extension; the immediate width is `isWord && !isSigned`, so S=1 reads one byte whatever W says; success iff operand, displacement and immediate are all present; cursor after all of them |
| `Forms.ImmediateToRmText` | part1/pkg/decoder/arithmetic.go:102-117 | its text: R/M operand, size keyword iff memory, and the immediate read after the displacement, as int8 of the low byte when S=1 and unsigned otherwise |
| `Forms.Unary` | part1/pkg/decoder/arithmetic.go:261-298 | REG must equal the extension; `mnemonic size X` for memory and `mnemonic X` for a register; cursor past the operand |
| `Forms.AccumulatorImmediate` | part1/pkg/decoder/logic.go:94 | `immediateWithAccumulator` chooses `al`/`ax` and the immediate width by W = bit 0 |
| `Forms.AccumulatorWithImmediate` | part1/pkg/decoder/arithmetic.go:123-142 | `mnemonic al|ax, N` with the immediate of width W, and its missing-byte errors |
| `Forms.RegOrMemWithReg` | part1/pkg/decoder/logic.go:80 | the helper method returns RegOrMemPair's pair or error and cursor |
| `Forms.ImmediateWithAccumulator` | part1/pkg/decoder/logic.go:94 | the helper method returns AccumulatorImmediate's register name and value, or its error |
| `Forms.BuildImmediateWithRegOrMemInstruction` | part1/pkg/decoder/logic.go:89 | the logic immediate forms: ImmediateToRm with the S bit not honoured |
| `Move.ImmediateToRegOrMem` | part1/pkg/decoder/move.go:11-148 | REG != 000 is an error; success iff operand, displacement and W-wide immediate are present; total read 1 + displacement + (W ? 2 : 1) |
| `Move.ImmediateToRegOrMemText` | part1/pkg/decoder/move.go:102-147 | the immediate follows the displacement, and the size keyword appears iff the destination is memory |
| `Move.ImmediateCommentOnlyForNegativeWords` | part1/pkg/decoder/move.go:121-147 | the ` ; or` comment appears exactly for a word immediate whose int16 reading is negative, never for a byte |
| `Move.ImmediateToReg` | part1/pkg/decoder/move.go:151-176 | W is opcode bit 3 and the register bits 0-2; the immediate has width W; ` ; or` iff negative as int16 |
| `Move.MemoryToAccumulator` | part1/pkg/decoder/move.go:209-228 | `mov al|ax, [addr]` with the address of width W, and its errors |
| `Move.AccumulatorToMemory` | part1/pkg/decoder/move.go:231-250 | `mov [addr], al|ax` with the address of width W, and its errors |
| `Move.DecodeDestination` | part1/pkg/decoder/move.go:36-100 | the inline MOD switch reads and prints exactly what RmOperand specifies |
| `Move.MoveImmediateToRegOrMem` | part1/pkg/decoder/move.go:11-148 | the builder's text, error and cursor are ImmediateToRegOrMem's |
| `Move.MoveImmediateToReg` | part1/pkg/decoder/move.go:151-176 | the builder's text, error and cursor are ImmediateToReg's |
| `Move.MoveRegMemToReg` | part1/pkg/decoder/move.go:179-206 | the builder's text, error and cursor are `mov` RegMemWithReg's |
| `Move.MoveMemoryToAccumulator` | part1/pkg/decoder/move.go:209-228 | the builder's text, error and cursor are MemoryToAccumulator's |
| `Move.MoveAccumulatorToMemory` | part1/pkg/decoder/move.go:231-250 | the builder's text, error and cursor are AccumulatorToMemory's |
| `MainEngine.MemoryToAx` | part1/main.go:491-519 | W chooses the address width, and the register printed is always `ax` |
| `MainEngine.AxToMemory` | part1/main.go:522-550 | W chooses the address width, and the register printed is always `ax` |
| `MainEngine.AccumulatorFormsAgreeOnWords` | part1/main.go:497-518 | the first engine reads what the package does and prints the same text exactly when W=1 |
| `MainEngine.MoveImmediateToReg` | part1/main.go:312-354 | main.go's builder is ImmediateToReg under its own instruction name |
| `MainEngine.MoveMemoryToAccumulator` | part1/main.go:491-519 | the builder's text, error and cursor are MemoryToAx's |
| `MainEngine.MoveAccumulatorToMemory` | part1/main.go:522-550 | the builder's text, error and cursor are AxToMemory's |
| `Dispatch.SelectMovRanges` | part1/pkg/decoder/decoder.go:137-151 | each MOV arm takes exactly its opcode range (88-8B, C6-C7, B0-BF, A0-A1, A2-A3), and every other opcode matches none |
| `Dispatch.Step` | part1/pkg/decoder/decoder.go:136-151 | the builder of an arm never moves the cursor back or past the end |
| `Dispatch.RunStep` | part1/pkg/decoder/decoder.go:126-171 | one turn: a builder's success appends its text and continues after it; its error ends the run with that error |
| `Dispatch.RunEnds` | part1/pkg/decoder/decoder.go:124-173 | the run never passes the end; it ends normally only at the end of input; it stops on an unmatched opcode only just after reading it |
| `Dispatch.Build` | part1/main.go:129-169 | each arm calls its snapshot's builder, whose result is Step's |
| `Dispatch.DecodeOne` | part1/pkg/decoder/decoder.go:126-171 | reading an opcode and running its arm is one step of the run specification |
| `Dispatch.Decode` | part1/pkg/decoder/decoder.go:124-173 | the loop restarts the cursor at 0, appends the builder texts in order to `decoded`, returns them when the input runs out, and stops at the first error |
| `DataTransfer.MoveImmediateToRegOrMem` | part1/pkg/decoder/data-transfer.go:9-65 | the helper-based builder prints and reads exactly what move.go's inline one does |
| `DataTransfer.MoveRegMemToReg` | part1/pkg/decoder/data-transfer.go:96-123 | `mov` RegMemWithReg through decodeBinaryRegOrMem |
| `DataTransfer.PushRegOrMem` | part1/pkg/decoder/data-transfer.go:171-194 | REG must be 110; always `push word X` |
| `DataTransfer.PopRegOrMem` | part1/pkg/decoder/data-transfer.go:216-239 | REG must be 000; always `pop word X` |
| `DataTransfer.RegisterFormsIdentifyTheRegister` | part1/pkg/decoder/data-transfer.go:198-249 | `push R`/`pop R` name the word register of bits 0-2, injectively, and never coincide |
| `DataTransfer.SegmentFormsIdentifyTheRegister` | part1/pkg/decoder/data-transfer.go:207-258 | `push SR`/`pop SR` name the segment register of bits 3-5, injectively for 0-3, and never coincide |
| `Arithmetic.AdjustOf` | part1/pkg/decoder/arithmetic.go:19-26 | an opcode decoded as an adjust is that adjust's opcode |
| `Arithmetic.AdjustRoundTrip` | part1/pkg/decoder/arithmetic.go:19-26 | `aaa` and `daa` are recovered from their opcodes and print different constants |
| `Arithmetic.RegOrMemAndReg` | part1/pkg/decoder/arithmetic.go:29-56 | ADD/ADC/SUB/CMP reg/mem builders are RegMemWithReg with their mnemonic and message |
| `Arithmetic.ImmediateAndRegOrMem` | part1/pkg/decoder/arithmetic.go:59-120 | the immediate builders are ImmediateToRm with their extension, the S bit honoured |
| `Arithmetic.ImmediateAndAccumulator` | part1/pkg/decoder/arithmetic.go:123-142 | the accumulator builders are AccumulatorWithImmediate |
| `Arithmetic.IncRegOrMem` | part1/pkg/decoder/arithmetic.go:261-298 | REG must be 000; `inc size X` for memory and `inc X` for a register |
| `Arithmetic.IncRegIdentifiesTheRegister` | part1/pkg/decoder/arithmetic.go:302-307 | `inc R` names the word register of bits 0-2, injectively |
| `Add.AddRegOrMemWithReg` | part1/pkg/decoder/add.go:6-33 | W = bit 0, D = bit 1, one operand byte, then decodeRegOrMem; a missing operand byte is an error |
| `Add.AddImmediateToRegOrMem` | part1/pkg/decoder/add.go:36-38 | the stub returns empty text and no error, and reads nothing |
| `Add.AccumulatorAdd` | part1/pkg/decoder/add.go:41-65 | `add al|ax, N` with the immediate of the chosen width and ` ; or S` iff negative as int16, or the reader's error |
| `Add.AddImmediateToAccumulator` | part1/pkg/decoder/add.go:41-65 | the code as written takes the width from opcode bit 3 |
| `Add.AccumulatorAddCorrectedWidths` | part1/pkg/decoder/add.go:41-65 | with W from bit 0, opcode 04 reads one byte into `al` and 05 two into `ax` |
| `Add.AccumulatorAddAsWrittenDiffers` | part1/pkg/decoder/add.go:43 | as written agrees with the corrected form on 04 and differs on every successful 05 |
| `Add.AccumulatorAddCounterexample` | part1/pkg/decoder/add.go:43 | bytes 05 34 12 give `add al, 52` as written and `add ax, 4660` corrected |
| `Logic.Not` | part1/pkg/decoder/logic.go:6-41 | REG must be 010, a missing operand is an error, the size keyword appears only for memory |
| `Logic.ShiftOf` | part1/pkg/decoder/logic.go:44-76 | the shift a REG value names carries that value; only 110 names none |
| `Logic.ShiftOfExtension` | part1/pkg/decoder/logic.go:44-76 | shl 100, shr 101, sar 111, rol 000, ror 001, rcl 010, rcr 011 are each recovered from their REG value |
| `Logic.ShiftCount` | part1/pkg/decoder/logic.go:207-212 | the count is `cl` exactly when V = bit 1 is set, and `1` otherwise |
| `Logic.Shift` | part1/pkg/decoder/logic.go:175-219 | REG must equal the extension; `mn size X, cnt` for memory and `mn X, cnt` for a register; missing operand is an error |
| `Logic.ShiftIsUnaryWithCount` | part1/pkg/decoder/logic.go:175-219 | a shift reads and fails as the unary form does, and prints its text with the count before the newline |
| `Logic.BitShift` | part1/pkg/decoder/logic.go:175-219 | `bitShift`'s text, error and cursor are Shift's |
| `Logic.ShiftInstruction` | part1/pkg/decoder/logic.go:44-76 | each wrapper is bitShift with its mnemonic, REG value and name |
| `Logic.LogicRegOrMemWithReg` | part1/pkg/decoder/logic.go:79-85 | the AND/TEST/OR/XOR reg/mem builders are RegMemWithReg via regOrMemWithReg |
| `Logic.LogicImmediateWithRegOrMem` | part1/pkg/decoder/logic.go:88-90 | the immediate builders are ImmediateToRm with their extension and the S bit not honoured |
| `Logic.LogicImmediateWithAccumulator` | part1/pkg/decoder/logic.go:93-100 | the accumulator builders are AccumulatorWithImmediate |
| `Logic.LogicExtensionsDistinct` | part1/pkg/decoder/logic.go:88-162 | and 100, test 000, or 001, xor 110 are distinct extensions |
| `StringOps.StringOpOf` | part1/pkg/decoder/string.go:19-32 | an opcode recognised as a string family has that family's top seven bits; the others are not families |
| `StringOps.StringOpOfFamily` | part1/pkg/decoder/string.go:19-32 | the byte and word opcodes of each family are recognised as it |
| `StringOps.RepeatPrefix` | part1/pkg/decoder/string.go:9-44 | `repz`/`repnz` (by Z) exactly before CMPS/SCAS; `rep` before the others, any other byte, and at the end; the cursor is not moved |
| `StringOps.StringInstruction` | part1/pkg/decoder/string.go:47-104 | the text is the four-letter mnemonic, one width letter and a newline |
| `StringOps.StringInstructionInjective` | part1/pkg/decoder/string.go:47-104 | the text names the family and the width (`w` iff bit 0) and nothing else |
| `ControlTransfer.LabelNameInjective` | part1/pkg/decoder/control-transfer.go:33-35 | `label__<pos>` names positions injectively, both directions |
| `ControlTransfer.AlternativeComment` | part1/pkg/decoder/control-transfer.go:8-11 | the `; alt` comment is present exactly when an alternative name exists |
| `ControlTransfer.Jump` | part1/pkg/decoder/control-transfer.go:5-31 | fails exactly at the end of input, naming the mnemonic; reads one byte; target = cursor after it + int8 offset, behind it iff the byte >= 128; the text with and without ` ; alt` |
| `ControlTransfer.JumpConditionally` | part1/pkg/decoder/control-transfer.go:5-31 | the builder follows Jump, writes only `labels[target]` and leaves the labels unchanged on an error |
| `ControlTransfer.JumpLabelsIdentifyOffsets` | part1/pkg/decoder/control-transfer.go:19-24 | at one position, two jumps record the same label exactly when their offset bytes agree |
| `Interrupt.InterruptWithTypeText` | part1/pkg/decoder/interrupt.go:6-13 | fails exactly when the type byte is missing; reads one byte; `int N` |
| `Interrupt.InterruptTypeReadsBack` | part1/pkg/decoder/interrupt.go:6-13 | N reads back as the type byte, in unsigned decimal |
| `Interrupt.InterruptWithType` | part1/pkg/decoder/interrupt.go:6-13 | the builder's text, error and cursor are InterruptWithTypeText's, whatever the opcode argument |
| `Interrupt.FixedInterruptOf` | part1/pkg/decoder/interrupt.go:16-28 | an opcode decoded as a fixed interrupt is its opcode |
| `Interrupt.FixedInterruptsDistinct` | part1/pkg/decoder/interrupt.go:16-28 | `int3`, `into` and `iret` are recovered from their opcodes, print differently, and never print as `int N` |
| `ProcessorControl.ControlOpOf` | part1/pkg/decoder/processor-control.go:4-46 | an opcode decoded as a processor-control operation is its opcode |
| `ProcessorControl.ControlOpRoundTrip` | part1/pkg/decoder/processor-control.go:4-46 | the nine are recovered from their opcodes and no two share a text or an opcode |
| `SimDataTransfer.RegMemNamed` | performance-aware-programming/sim8086/pkg/decoder/data-transfer.go:446-472 | a reg/mem form with W and D fixed: reads, errors and the text ordered by D |
| `SimDataTransfer.RegMemNamedIsRegMemWithReg` | performance-aware-programming/sim8086/pkg/decoder/data-transfer.go:96-130 | with W and D taken from the opcode it is the package's reg/mem form |
| `SimDataTransfer.MoveRegMemToReg` | performance-aware-programming/sim8086/pkg/decoder/data-transfer.go:96-130 | `mov` RegMemWithReg |
| `SimDataTransfer.BitAnd3Masks` | performance-aware-programming/sim8086/pkg/decoder/data-transfer.go:187-192 | `& 0b000` is always 0, `& 0b100` is non-zero iff REG >= 4, `& 0b011` keeps the SR field |
| `SimDataTransfer.SegmentMove` | performance-aware-programming/sim8086/pkg/decoder/data-transfer.go:177-226 | a word move naming the segment register `reg & 0b011`, direction fixed; rejected with the high-bit error exactly when the masked REG is non-zero |
| `SimDataTransfer.MoveRegOrMemToSegment` | performance-aware-programming/sim8086/pkg/decoder/data-transfer.go:177-200 | as written, with the segment the destination |
| `SimDataTransfer.MoveSegmentToRegOrMem` | performance-aware-programming/sim8086/pkg/decoder/data-transfer.go:203-226 | as written, with the segment the source |
| `SimDataTransfer.MoveSegment` | performance-aware-programming/sim8086/pkg/decoder/data-transfer.go:177-226 | the shared body is SegmentMove with the mask 0b000 |
| `SimDataTransfer.SegmentMoveCorrectedGuard` | performance-aware-programming/sim8086/pkg/decoder/data-transfer.go:187 | the corrected guard rejects exactly REG 100-111 and otherwise agrees with the code as written |
| `SimDataTransfer.SegmentMoveAsWrittenAcceptsHighBit` | performance-aware-programming/sim8086/pkg/decoder/data-transfer.go:213 | as written the guard never fires: the move succeeds whenever its bytes are present |
| `SimDataTransfer.SegmentMoveCounterexample` | performance-aware-programming/sim8086/pkg/decoder/data-transfer.go:187 | 8E E0 prints `mov es, ax` as written and is rejected when corrected |
| `SimDataTransfer.ExchangeIgnoresDirection` | performance-aware-programming/sim8086/pkg/decoder/data-transfer.go:321-351 | XCHG takes REG as the source whatever bit 1 holds: opcodes agreeing on W exchange alike, each as the reg/mem form of the opcode with bit 1 cleared |
| `SimDataTransfer.ExchangeRegOrMemWithReg` | performance-aware-programming/sim8086/pkg/decoder/data-transfer.go:321-351 | the builder's text, error and cursor are Exchange's |
| `SimDataTransfer.ExchangeWithAccumulatorRegister` | performance-aware-programming/sim8086/pkg/decoder/data-transfer.go:355-360 | `xchg ax, R` names the word register of bits 0-2, injectively, and reads nothing |
| `SimDataTransfer.InFixedPort` | performance-aware-programming/sim8086/pkg/decoder/data-transfer.go:363-382 | fails exactly when the port byte is missing; reads one byte; `in al|ax, p` |
| `SimDataTransfer.OutFixedPort` | performance-aware-programming/sim8086/pkg/decoder/data-transfer.go:402-421 | fails exactly when the port byte is missing; reads one byte; `out p, al|ax` |
| `SimDataTransfer.FixedPortReadsBack` | performance-aware-programming/sim8086/pkg/decoder/data-transfer.go:363-421 | the printed port reads back as the port byte |
| `SimDataTransfer.InputFromFixedPort` | performance-aware-programming/sim8086/pkg/decoder/data-transfer.go:363-382 | the builder's text, error and cursor are InFixedPort's |
| `SimDataTransfer.OutputToFixedPort` | performance-aware-programming/sim8086/pkg/decoder/data-transfer.go:402-421 | the builder's text, error and cursor are OutFixedPort's |
| `SimDataTransfer.VariablePortForms` | performance-aware-programming/sim8086/pkg/decoder/data-transfer.go:385-438 | `in al|ax, dx` and `out dx, al|ax` depend on W only and never coincide |
| `SimDataTransfer.LoadPointer` | performance-aware-programming/sim8086/pkg/decoder/data-transfer.go:446-530 | `lea`/`lds`/`les` are always word with REG the destination |
| `SimDataTransfer.FixedTransferOf` | performance-aware-programming/sim8086/pkg/decoder/data-transfer.go:441-550 | an opcode decoded as a one-byte transfer is its opcode |
| `SimDataTransfer.FixedTransferRoundTrip` | performance-aware-programming/sim8086/pkg/decoder/data-transfer.go:441-550 | `xlat`, `lahf`, `sahf`, `pushf`, `popf` are recovered from their opcodes and print differently |
| `SimArithmetic.AdjustOf` | performance-aware-programming/sim8086/pkg/decoder/arithmetic.go:27-86 | an opcode decoded as an adjust or conversion is its opcode |
| `SimArithmetic.AdjustRoundTrip` | performance-aware-programming/sim8086/pkg/decoder/arithmetic.go:27-86 | `aaa`, `daa`, `aas`, `das`, `cbw`, `cwd` are recovered from their opcodes and print different constants |
| `SimArithmetic.AsciiAdjustText` | performance-aware-programming/sim8086/pkg/decoder/arithmetic.go:48-76 | `aam`/`aad` read one byte; missing is an error; success exactly when it is 0b00001010, otherwise the operand error quoting it |
| `SimArithmetic.AsciiAdjustInstruction` | performance-aware-programming/sim8086/pkg/decoder/arithmetic.go:48-76 | the builders' text, error and cursor are AsciiAdjustText's |
| `Forms.BuildImmediateWithRegOrMemArithmeticInstruction` | performance-aware-programming/sim8086/pkg/decoder/arithmetic.go:357-416 | the builder is ImmediateToRm with the S bit honoured: REG = regPattern, width `isWord && !isSigned`, size keyword iff memory |
| `SimArithmetic.AluRegOrMemWithReg` | performance-aware-programming/sim8086/pkg/decoder/arithmetic.go:89-95 | ADD/ADC/SUB/SBB/CMP reg/mem wrappers are RegMemWithReg |
| `SimArithmetic.AluImmediateWithRegOrMem` | performance-aware-programming/sim8086/pkg/decoder/arithmetic.go:98-104 | the immediate wrappers pass add 000, adc 010, sbb 011, sub 101, cmp 111 |
| `SimArithmetic.AluImmediateWithAccumulator` | performance-aware-programming/sim8086/pkg/decoder/arithmetic.go:107-114 | the accumulator wrappers are AccumulatorWithImmediate |
| `SimArithmetic.SignExtendedImmediate` | performance-aware-programming/sim8086/pkg/decoder/arithmetic.go:384-411 | with S=W=1 and the register operand `ax`, every ALU immediate form reads one byte and prints it as an int8 |
| `SimArithmetic.DecRegOrMem` | performance-aware-programming/sim8086/pkg/decoder/arithmetic.go:254-291 | REG must be 001; `dec size X` for memory and `dec X` for a register |
| `SimArithmetic.DecRegIdentifiesTheRegister` | performance-aware-programming/sim8086/pkg/decoder/arithmetic.go:295-300 | `dec R` names the word register of bits 0-2, injectively |
| `SimArithmetic.IncDecDistinguishedByReg` | performance-aware-programming/sim8086/pkg/decoder/arithmetic.go:146-291 | INC and DEC r/m share an opcode but never both accept the same operand byte |
| `SimArithmetic.MulDivOf` | performance-aware-programming/sim8086/pkg/decoder/arithmetic.go:332-354 | the group member a REG value names carries that value; 000-010 name none |
| `SimArithmetic.MulDivOfExtension` | performance-aware-programming/sim8086/pkg/decoder/arithmetic.go:332-354 | neg 011, mul 100, imul 101, div 110, idiv 111 are each recovered from their REG value |
| `SimArithmetic.MulOrDiv` | performance-aware-programming/sim8086/pkg/decoder/arithmetic.go:420-456 | REG must equal regPattern; the unary text with the size keyword only for memory |
| `SimArithmetic.MulDivInstruction` | performance-aware-programming/sim8086/pkg/decoder/arithmetic.go:332-354 | each wrapper is mulOrDiv with its mnemonic, REG value and name |

## Left out

- The command-line programs are not modelled: `main`, `printHead`, `exit` and `fileExists` in
  `part1/main.go`, and both `cmd/cli/main.go` files. They only read files, print and exit.
- The test files are not modelled. They assemble the output with an external NASM binary, which
  cannot be expressed here. The per-encoding properties behind their round trip are lemmas above.
- `pattern` computes the bit length with floating-point `math.Log2` and `math.Trunc`. The model
  uses an integer bit length, which is exact for patterns 1-255.
- `pattern(operation, 0b000000)` in `Decode` converts the logarithm of zero to an int, and Go
  leaves that result implementation-defined. The run stops with `Unmodelled(op)` at that arm, so
  the later ADD arms of the package loop are not reached in the model. Those builders are
  modelled on their own.
- The panics in `verifyOperationType` and `verifyDirection`, and the `default:` arms of the MOD
  switches, are not modelled. One- and two-bit fields cannot reach them.
- Errors are values, not message text. Each is the instruction name plus what went wrong: the
  missing field (`Missing(name, AddressLow)` and the like), or the bit pattern a message quotes
  (`BadReg`, `BadRegHighBit`, `BadOperand`). The wording of the `fmt.Errorf` messages is not
  modelled. Where the two engines word the same failure differently, they map to the same value.
  Examples are the address and direct-address messages of `part1/main.go` and the package.
- `fmt` formatting is modelled only for decimal numbers and fixed concatenation.
- The `; or` comment, the S-bit immediate and the displacement rendering follow Go's integer
  conversions exactly. No wider or multi-byte arithmetic is modelled.
- The copies of `next` (`part1/main.go`:119-127) and `pattern` (`part1/main.go`:596-604) in the
  first engine are the package's, line for line. `Engine.Decoder.Next` and `Engine.Pattern`
  model both.
- The PUSH r/m message for a wrong REG field quotes 000 although the check demands 110, and the
  error models the quoted pattern (`BadReg(name, 0)`). This reads as a slip in a message, not in
  behaviour, and is not listed as a finding.
- The decode loops are modelled as far as the arms shown: the five MOV arms and the package's
  empty-pattern arm. The builders of the other snapshots' opcodes are not wired into a loop,
  because no loop in the source calls them.
- `JumpNames` and `JumpAlternativeNames` are not part of this model. They are parameters, and a
  missing key reads as Go's empty string.
- Keys 4-7 of `SegmentRegisterFieldEncoding` are taken to be absent, so they print as the empty
  string. The masked SR field of the segment moves never reaches them.
- The `decoded` field of the package's `Decoder` struct is a byte slice. The model keeps it as a
  string of the same characters, since every builder appends ASCII text.

## Findings

| source | as written | input that shows it | evidently intended | confidence | as-written member | corrected member |
|---|---|---|---|---|---|---|
| part1/pkg/decoder/add.go:43 | `addImmediateToAccumulator` takes W from opcode bit 3, which is always 0 in `[0000010w]` | bytes 05 34 12: `add al, 52`, leaving 0x12 unread | W is bit 0: `add ax, 4660` | high; not executed | `Add.AddImmediateToAccumulator`, `Add.AccumulatorAddCounterexample` | `Add.AccumulatorAddCorrected`, `Add.AccumulatorAddCorrectedWidths` |
| performance-aware-programming/sim8086/pkg/decoder/data-transfer.go:187 | the segment moves guard REG with `reg&0b000 != 0`, which never holds, in both moves (also line 213) | bytes 8E E0 (REG 100): `mov es, ax` | REG 1xx rejected with the "must start with 0" error: `reg&0b100 != 0` | high; not executed | `SimDataTransfer.MoveRegOrMemToSegment`, `SimDataTransfer.SegmentMoveCounterexample` | `SimDataTransfer.SegmentMoveCorrected`, `SimDataTransfer.SegmentMoveCorrectedGuard` |
