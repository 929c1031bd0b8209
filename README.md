# MCUSim execution engine in Dafny

MCUSim emulates a small microcoded accumulator machine. Its program store holds
13-bit instruction words. Each word is a 4-bit OPCODE, a 1-bit DEST that selects
register 0 or 1, and an 8-bit DATA field. Every value is a Python string of '0' and '1'
characters, and this model keeps them that way (`Bits.Bits`, a sequence of `Bit`
characters of any length).

The model has these parts:

- `Bits`: the conversions `fromStringToInt` and `fromIntToString`.
- `Alu`: the seven entries of the `MCU.alu` dispatch table, with `twosComp`,
  `bitWiseXOR` and `bitWiseAND`.
- `Control`: the two-stage decoder. `codeToName` maps an opcode to a mnemonic, and the
  `decoder` dictionary of `getCode` maps a mnemonic to a 10-character control word.
  The control word is described field by field by a `Signals` record.
- `CallStack`: the values `pushStack` and `popStack` leave in the 4-slot stack.
- `Engine`: one clock cycle (`runClock`) as a function `Cycle` on a `MachineState`.
  A fetch outside the program store raises `PcOutOfRange` (Python's `IndexError`).
  An undefined opcode raises `InvalidOpcode` (a `KeyError`). `Run` iterates the cycle.
- `Machine`: the `MCU` object as a class. Its fields are updated in place, and the stack
  is an array rewritten by index loops. The shared `INPUTDATA` and `OUTPUTDATA` latches
  form a `Latches` object. `Mcu.RunClock` is proved to end in the state `Engine.Cycle`
  computes, or to raise its fault with no field changed.
- `Panel` and `Loader`: two pure pieces of the GUI. `Panel` packs the four switches into
  the input byte. `Loader` handles the text and hexadecimal lines of `loadProgram`.

In three places the source's own names suggest more than its code does, and the
model follows the code:

- `ALUOP_AMB` ("A minus B", MCUSim.py:21) selects `ADD(twosComp(a), b)`
  (MCUSim.py:138). That complements DATA, the first operand, so SUB computes
  register minus DATA.
- `ALUOP_AANDB` (MCUSim.py:24) selects `bitWiseAND` (MCUSim.py:74-82). Its nested
  loops build a cross product of the two operands, not a positional AND.
- `popStack` (MCUSim.py:91-96) is written with a shifting loop, but the loop runs
  over `range(len(stack), len(stack) - 1)`, which is empty. Nothing shifts, so RET
  leaves the return address on top of the stack.

The model also follows these behaviours of the code:

- `reset` keeps the program.
- `useProgram` keeps `pc`, the registers and the stack.

## Model

| member | source | states |
|---|---|---|
| Bits.FromStringToInt | MCUSim.py:99-100 | `int(s, 2)` of a non-empty bit string is below 2^|s| |
| Bits.FromIntToString | MCUSim.py:103-104 | the rendering has exactly `size` characters when `size > 0`, and at least one otherwise |
| Bits.RenderingIsZFillSuffix | MCUSim.py:103-104 | the rendering equals the last `size` characters of the binary digits zero-filled to `size` (the whole zero-filled string when `size` is 0) |
| Bits.IntStringRoundTrip | MCUSim.py:99-104 | parsing a value rendered at width n gives it back modulo 2^n, and exactly when it is below 2^n |
| Bits.StringIntRoundTrip | MCUSim.py:99-104 | rendering a string's value at the string's own width gives the string back |
| Bits.RenderedWidths | MCUSim.py:103-104 | at the two widths the simulator uses, the rendered value is i mod 256 (a byte) and i mod 8192 (a word) |
| Bits.ValueInjective | MCUSim.py:99-100 | two bit strings of the same width with the same value are equal |
| Bits.ValueZeroIffNoOne | MCUSim.py:99-100 | a bit string has value 0 exactly when it contains no '1' |
| Alu.Add | MCUSim.py:136-137 | ADD gives 8 characters holding (a + b) mod 256; its flag is set exactly when both values are 0, because it is computed on the untruncated sum |
| Alu.AddOverflowKeepsZeroFlagClear | MCUSim.py:136-137 | when the operands add up to 256 (0x80 + 0x80) ADD gives `00000000` with the flag clear |
| Alu.Complement | MCUSim.py:116-122 | the flipping loop of `twosComp` keeps the length and changes every character |
| Alu.ValueOfComplement | MCUSim.py:116-122 | the flipped string has value 2^n - 1 - v |
| Alu.TwosComp | MCUSim.py:116-123 | `twosComp` always returns 8 characters |
| Alu.TwosCompOfByte | MCUSim.py:116-123 | for a byte x, `twosComp(x)` has value (256 - x) mod 256, and is 0 exactly when x is 0 |
| Alu.SubComputesRegisterMinusData | MCUSim.py:138 | for byte DATA `a`, SUB = ADD(twosComp(a), b) has value (b - a) mod 256 (register minus DATA), and its flag is set exactly when both are 0 |
| Alu.Sub | MCUSim.py:138 | the SUB entry is ADD of `twosComp(DATA)` and the operand, so it always gives 8 characters; its meaning is stated by `SubComputesRegisterMinusData` |
| Alu.XorBits | MCUSim.py:64-71 | the result has length |a| and holds '1' at i exactly when a[i] != b[i] |
| Alu.BitwiseXor | MCUSim.py:64-71 | the flag of `bitWiseXOR` is set exactly when `a` equals the first |a| characters of `b` |
| Alu.XorInvolution | MCUSim.py:64-71 | for operands of equal width, XOR with `b` twice gives `a` back |
| Alu.AndBits | MCUSim.py:74-82 | the nested loops of `bitWiseAND` produce |a| * |b| characters |
| Alu.AndBitsAt | MCUSim.py:74-82 | the character at i*|b| + j is '1' exactly when a[i] and b[j] are both '1' |
| Alu.AndBitsHasOne | MCUSim.py:74-82 | the cross product contains a '1' exactly when both operands do |
| Alu.BitwiseAnd | MCUSim.py:74-82 | the flag of `bitWiseAND` is set exactly when `a` or `b` has no '1' |
| Alu.Evaluate | MCUSim.py:135-144 | with byte DATA and an operand of at least 8 characters, every entry returns at least 8 characters |
| Alu.ZeroFlagSound | MCUSim.py:135-144 | whenever an entry raises its flag, the result reads as 0; for AND and XOR the flag is set exactly when the result reads as 0 |
| Control.Opcode | MCUSim.py:28-42 | a mnemonic's opcode value is its position in the `codeToName` table |
| Control.CodeToName | MCUSim.py:28-42 | a string that names an instruction is 4 characters long, and its value is that instruction's opcode |
| Control.OpcodeInjective | MCUSim.py:28-42 | distinct mnemonics have distinct opcodes |
| Control.OpcodeRoundTrip | MCUSim.py:28-42 | the 4-bit opcode of every mnemonic looks up to that mnemonic |
| Control.OpcodeUnique | MCUSim.py:28-42 | the only key that looks up to a mnemonic is its own 4-bit opcode |
| Control.CodeToNameTable | MCUSim.py:28-42 | the thirteen keys `0000` to `1100` map to CALL, RET, BZ, B, ADD, SUB, AND, LD, OUT, IN, DOUT, XOR and IN_XOR |
| Control.UndefinedOpcodes | MCUSim.py:28-42 | `1101`, `1110` and `1111` are not keys, so `getCode` raises for them |
| Control.StackOpTable | MCUSim.py:130-134 | a key of `MCU.stackOp` is the code of the operation it selects |
| Control.StackOpTableRoundTrip | MCUSim.py:8-10 | each `STACK_OP_*` code selects its own operation |
| Control.AluTable | MCUSim.py:135-144 | a key of `MCU.alu` is the code of the entry it selects |
| Control.AluTableRoundTrip | MCUSim.py:20-26 | each `ALUOP_*` code selects its own entry |
| Control.AddrSrcCodeInjective | MCUSim.py:12-15 | the four `ADDR_*` codes are distinct |
| Control.Encode | MCUSim.py:46-60 | a control word has 10 characters |
| Control.DecodeFields | MCUSim.py:177-183 | slicing a control word at 0:2, 2:4, 4:7, 7, 8 and 9 gives back each field's code and flag |
| Control.Design | MCUSim.py:46-60 | only CALL pushes and only RET pops; exactly ADD, SUB, AND, LD, IN, XOR and IN_XOR write a register; exactly OUT and DOUT write OUTPUT; exactly IN and IN_XOR read the input latch |
| Control.ControlWordTable | MCUSim.py:46-60 | each mnemonic's control word is the literal 10-character string of the `decoder` dictionary |
| Control.GetCode | MCUSim.py:45-61 | `getCode` succeeds exactly on a 4-bit key of value below 13, and returns 10 characters |
| CallStack.Pushed | MCUSim.py:85-88 | a push keeps the length, puts x in slot 0 and moves slot i-1 to slot i, dropping the last slot |
| CallStack.Popped | MCUSim.py:91-96 | a pop keeps the length, clears the last slot and leaves every other slot as it was |
| CallStack.PushAll | MCUSim.py:85-88 | a sequence of pushes keeps the stack's length |
| CallStack.PushAllAt | MCUSim.py:85-88 | after pushes, slot i holds the value pushed i pushes ago, or the old slot i - |xs|; only the last four pushes survive |
| CallStack.PushThenPop | MCUSim.py:85-96 | a pop after a push keeps the pushed value on top and loses the old last two slots |
| Engine.SetReg | MCUSim.py:107-113 | only the register DEST names is written, only when the write is enabled, and nothing else changes |
| Engine.ApplyStackOp | MCUSim.py:130-134 | every stack operation keeps the stack's length |
| Engine.NextPc | MCUSim.py:199-212 | without a jump the next `pc` is `pc + 1`; a jump target is read from a byte, so CALL, B, BZ and RET reach only the first 256 words |
| Engine.Operand | MCUSim.py:185-190 | IN and IN_XOR take the input latch as their operand; every other instruction takes the register DEST names; in a valid state the operand has at least 8 characters |
| Engine.Cycle | MCUSim.py:169-214 | a cycle raises `PcOutOfRange` exactly when `pc` is past the store; it raises `InvalidOpcode` exactly when the opcode's value is 13 or more; otherwise it keeps the state valid and the program and input unchanged |
| Engine.Execute | MCUSim.py:185-214 | a decoded instruction keeps the state valid and leaves the program and input latch alone |
| Engine.NextPcOfCycle | MCUSim.py:199-214 | CALL and B jump to DATA and RET to the old slot 0; BZ jumps to DATA when the register is exactly `00000000`; every other instruction goes to `pc + 1` |
| Engine.StackOfCycle | MCUSim.py:196-197 | CALL pushes the 8-bit rendering of `pc + 1` (value (pc+1) mod 256), RET pops, and no other instruction changes the stack |
| Engine.WritesOfCycle | MCUSim.py:193-195 | only the register DEST names can change, and only for the seven writing instructions; OUTPUT becomes the register for OUT, DATA for DOUT, and stays otherwise |
| Engine.RegisterOfCycle | MCUSim.py:192-193 | a writing instruction leaves the ALU result on DATA and its operand in the register DEST names |
| Engine.ArithmeticOfCycle | MCUSim.py:136-138 | after ADD the register holds (DATA + register) mod 256; after SUB it holds (register - DATA) mod 256 |
| Engine.TransferOfCycle | MCUSim.py:139-142 | LD loads DATA, IN the input latch, XOR and IN_XOR the positional XOR, and AND the cross product with DATA first |
| Engine.Run | MCUSim.py:169-214 | repeated cycles keep the state valid and the program unchanged |
| Engine.CallThenRet | MCUSim.py:85-96 | CALL to a RET returns to (pc + 1) mod 256 and leaves the return address in slot 0, the old slots 0 and 1 below it and a cleared last slot |
| Panel.PackInputs | MCUSim.py:317 | the input byte is four '0' characters followed by G2, G1, car and day/night, each '1' exactly when its switch is on |
| Panel.ValueOfInputs | MCUSim.py:317 | the input byte reads 8*G2 + 4*G1 + 2*car + day, below 16 |
| Panel.PackInputsInjective | MCUSim.py:317 | distinct switch settings give distinct input bytes |
| Machine.Padded | MCUSim.py:146-150 | the padded store has max(64, |p|) words, starts with `p` and continues with `0000000000000` |
| Machine.PaddedWords | MCUSim.py:164-167 | padding keeps every word 13 bits wide |
| Machine.PaddedUnique | MCUSim.py:164-167 | a store of the padded length that starts with `p` and continues with the padding word is the padded store |
| Machine.Latches.constructor | MCUSim.py:128-129 | both latches start as `00000000` |
| Machine.Latches.SetInputs | MCUSim.py:316-320 | the input latch becomes the packed switches; OUTPUT is unchanged |
| Machine.Mcu.constructor | MCUSim.py:146-154 | the padding loop leaves the padded program; `pc` is 0 and the registers and all four stack slots are `00000000` |
| Machine.Mcu.Reset | MCUSim.py:156-162 | `pc`, OUTPUT, the registers and a fresh stack are cleared; the program and input latch are kept |
| Machine.Mcu.UseProgram | MCUSim.py:164-167 | the padding loop leaves the padded program; `pc`, the registers and the stack are kept |
| Machine.Mcu.PushStack | MCUSim.py:85-88 | the index loop leaves the array holding the pushed stack |
| Machine.Mcu.PopStack | MCUSim.py:91-96 | returns the old last slot and leaves the array holding the popped stack |
| Machine.Mcu.SetReg | MCUSim.py:107-113 | the object's state becomes the write-back of the pure model, with nothing else changed |
| Machine.Mcu.RunStackOp | MCUSim.py:130-134 | the array ends holding the stack operation applied to its old contents |
| Machine.Mcu.SelectPc | MCUSim.py:199-212 | the `if` chain on the AddrSrc code selects the next `pc` that the pure model selects |
| Machine.Mcu.SplitControlWord | MCUSim.py:177-183 | slicing the control word and looking up the tables recovers every signal of the instruction |
| Machine.Mcu.Commit | MCUSim.py:193-214 | the write-back, OUTPUT latch, stack operation and `pc` update leave the state the pure model describes |
| Machine.Mcu.Execute | MCUSim.py:185-214 | the ALU step and the writes leave the state `Engine.Execute` computes |
| Machine.Mcu.RunClock | MCUSim.py:169-214 | a cycle ends in the state `Engine.Cycle` computes; when that cycle raises, the same fault is returned with every field unchanged; the state stays valid |
| Loader.Kept | MCUSim.py:371-375 | the kept characters are no more than the line's |
| Loader.FilterLine | MCUSim.py:370-375 | the character loop, including its `break` at '#', keeps exactly `Kept(line)` |
| Loader.KeptOfConcat | MCUSim.py:371-375 | before any '#', a line is filtered piece by piece |
| Loader.KeptOfBits | MCUSim.py:371-375 | a string of bits is kept whole |
| Loader.KeptStopsAtComment | MCUSim.py:371-375 | everything from the first '#' on is ignored |
| Loader.TextWordOfLine | MCUSim.py:370-377 | a line holding a bit string and then a '#' comment contributes that string exactly when it is 13 bits long, whatever the comment |
| Loader.TextProgram | MCUSim.py:368-378 | a text file loads at most one word per line, each 13 bits wide |
| Loader.LoadText | MCUSim.py:369-377 | the line loop loads exactly `TextProgram(lines)` |
| Loader.TextProgramOfWords | MCUSim.py:369-377 | a file of 13-bit words, each followed by a comment, loads as exactly those words |
| Loader.HexDigitsValue | MCUSim.py:381 | a string of n hexadecimal digits has a value below 16^n |
| Loader.ParseHex | MCUSim.py:381 | a value `int(s, 16)` accepts is below 16^|s| |
| Loader.HexWord | MCUSim.py:381 | a line loads exactly when its first four characters parse; the word is 13 bits wide and holds the value mod 8192 |
| Loader.HexProgram | MCUSim.py:379-382 | a hex file loads one word per line, each that line's word, and fails exactly when some line fails |
| Loader.LoadHex | MCUSim.py:380-381 | the line loop loads exactly `HexProgram(lines)` |
| Loader.HexProgramFails | MCUSim.py:380-381 | a single rejected line makes the whole load fail |
| Loader.HexRoundTrip | MCUSim.py:381 | writing a word as four hexadecimal digits and loading the line gives the word back, whatever follows the digits |

## Left out

- The tkinter GUI is not modelled. That covers `ToggleButton`, the `MCUGui` widgets and menus, `updateGUIOutput` and `drawTrafficLights`. They only render state.
- The file dialog and the file iteration of `loadProgram` are not modelled. A file is a sequence of lines here, and the call to `useProgram` that follows a load is left to the caller.
- `MCUClock.run` and the daemon thread of `__main__` are not modelled. They are a wall-clock busy-wait and concurrency. A cycle is one atomic step, and `MCU.dataLock` and its `with` blocks are not modelled.
- `updateInputMCU` skips the write when the switches have not changed (`latestInputData`). That test is GUI bookkeeping and does not change what the latch holds, so it is not modelled.
- Python's shared mutable default argument in `__init__` and `useProgram` is not modelled. The padding acts on a fresh sequence.
- Machine.Mcu.constructor: the assertion `len(addressCache) <= 64` is a precondition. The constructor also requires 13-character words and an 8-character input latch. Every loader path produces such words.
- Machine.Mcu.UseProgram: requires 13-character words, which every loader path produces. Words of any other width are excluded, and none of their behaviour is modelled:
  - A word under 5 characters makes `runClock` raise at `addr[4]`.
  - A word of any other width runs with a DATA field of that other width.
  - A 5-character word leaves DATA empty. ADD then raises at `int('', 2)`, CALL raises only after its push has changed the stack, and LD writes an empty register.
- Machine.Mcu.PopStack: the loop over `range(len(stack), len(stack) - 1)` is empty. It is not written out, because its body could never run.
- Machine.Mcu.RunClock: the state is required to be valid (see `Engine.ValidState`). Every state the constructor, `Reset`, `UseProgram` and `RunClock` produce is valid.
- Alu.Add: requires non-empty operands. `int('', 2)` would raise, and no reachable state has an empty operand.
- Alu.Evaluate: XOR requires `|a| <= |b|`, where Python would raise an `IndexError`. This always holds in a cycle, because DATA has 8 characters and registers have at least 8.
- Loader.ParseHex: `int(s, 16)` also accepts a sign, a `0x` prefix, underscores between digits, other Unicode whitespace and non-ASCII decimal digits such as '٣'. The model rejects these. A negative value would make `fromIntToString` produce a string that is not a bit string.
- The `dataLock`-protected reads of `pc` and `INPUTDATA` are plain field reads.
