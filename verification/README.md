# A register virtual machine and its image builder, in Dafny

The system is a small bytecode virtual machine written in Rust. Its memory
is a flat vector of 64-bit words (`usize`) holding both program and data.
It has eight registers:

- `ip`, the instruction pointer;
- `sp`, `fp` and `lp`, the stack, frame and local pointers;
- `ax`, `bx`, `cx` and `dx`, the general registers.

Programs are assembled with an `Image`. An image is a growable word buffer
with an emission cursor and an entry point. `load_image` copies it to the
start of memory, and `execute` then runs the fetch/decode/execute loop
while `ip` stays inside memory. The value returned is `ax`. Instructions
are single words numbered 1 to 59. The four immediate loads take one
operand word after the opcode.

The project is laid out as follows.

- `words.dfy` (module `Words`): the 64-bit word as a subset of `int`.
  - Wrapping arithmetic and bitwise operations are defined on it.
  - Its bits can be read as a two's-complement `isize` or as the bits of an IEEE-754 double (sign, NaN, order).
- `op_codes.dfy` (module `OpCodes`): the instruction catalog and its masks.
  - `Decode` turns a word into the arm of the engine's dispatch it selects.
  - `Encode` gives the code of an instruction.
- `into_char.dfy` (module `Chars`): `into_char`, reading a word back as a character.
- `image.dfy` (module `ImageBuilder`): class `Image`, with the buffer as a `seq` field reassigned by its methods.
  - Every emit and patch is specified by `PatchAt`: grow the buffer with zeros, then overwrite.
- `semantics.dfy` (module `Semantics`): functions over a snapshot `Machine` of the engine.
  - `Step` is one pass of the loop body, `Run` is the loop under a step budget, and `Execute` is `execute`.
- `engine.dfy` (module `Engine`): class `VirtualMachine`, with memory as an `array<Word>` updated in place.
  - The loop, step, syscall and register methods are proved to follow the functions of `Semantics`.
  - `WithMemory`, `New` and `LoadImage` are specified by the fields they set.
- `properties.dfy` (module `Properties`): what the instructions guarantee, stated over `Step` and `Run`.
  - Among them: stack discipline, jump targets, which registers an instruction touches, the printing syscall, and a complete run of a small program.
- `session.dfy` (module `Session`): the image builder, `load_image` and `execute` used together on that program.

## How the model reads the source

- **Panics become faults.** The engine is modelled as a debug build, where each of these panics:
  - an overflowing `sp -= 1` or `lp = sp - 1`;
  - a shift by 64 or more;
  - an out-of-range memory index;
  - a division or remainder by zero;
  - a word that is not a character under `into_char().unwrap()`;
  - an unknown opcode (including `DEREF`, which has no arm);
  - an unknown syscall.

  Each of these is a `Fault`, and `execute` reports it as `Panicked`.
  `wrapping_*` operations wrap modulo 2^64.
- **DIV follows the code.** The remainder is stored in `bx`, and `ax` is then divided by that new `bx`. The comment beside the opcode says the quotient goes to `ax` and the remainder to `dx`; the code does not do that.
- **Signed and double jumps follow the code.** JG, JGE, JL, JLE and FJG to FJLE read both of their operands from `ax`.
- **Double-precision instructions.**
  - FNEG flips the sign bit; that is exactly IEEE-754 negation.
  - The FJ* comparisons are decided on the bit patterns: both operands are the same word, so only NaN matters.
  - FADD, FSUB, FMUL, FDIV and the four conversions are given by a parameter `FloatUnit`, a function from the operation and `ax`, `bx` to the new `ax`.
- **Syscalls.**
  - Syscall 0 appends the printed characters to an `output` string kept by the machine.
  - Syscall 2 sets `ax := dx` and `ip := max_address`; the common `ip += 1` then leaves the loop.
  - Syscall 1 reads standard input. It is not modelled: the step reports `NeedsInput`, and `execute` reports `ReadsLine`.
- **The loop.** `execute`'s loop need not terminate, so `Run` and `VirtualMachine.Execute` take a step budget `fuel` and report `StepsExhausted` when it runs out.

## Model

| member | source | states |
|---|---|---|
| Words.WrappingAdd | src/virtual_machine/mod.rs:124-126 | `wrapping_add` is the sum, less 2^64 when the sum reaches 2^64 |
| Words.WrappingSub | src/virtual_machine/mod.rs:128-130 | `wrapping_sub` is the difference, plus 2^64 when it would be negative |
| Words.WrappingNeg | src/virtual_machine/mod.rs:132-134 | `wrapping_neg` is the additive inverse modulo 2^64: adding it back wraps to zero |
| Words.WrappingMul | src/virtual_machine/mod.rs:144-146 | `wrapping_mul` is congruent to the product modulo 2^64 |
| Words.Bitwise | src/virtual_machine/mod.rs:190-200 | combining the low n bits of two numbers bit by bit gives a number below 2^n |
| Words.BitAnd | src/virtual_machine/mod.rs:190-192 | `a & b` is at most each operand |
| Words.BitOr | src/virtual_machine/mod.rs:194-196 | the bitwise OR of two words is at least each of them |
| Words.BitXor | src/virtual_machine/mod.rs:198-200 | `a ^ b` is zero exactly when the operands are equal |
| Words.BitNot | src/virtual_machine/mod.rs:202-204 | `!a` equals `a ^ 0xFFFF_FFFF_FFFF_FFFF`: NOT flips all 64 bits |
| Words.ShiftLeft | src/virtual_machine/mod.rs:206-208 | a left shift by less than 64 is the product by 2^n modulo 2^64, the bits past bit 63 being dropped; a word with no bits to lose is multiplied exactly |
| Words.SignBitShiftedOut | src/virtual_machine/mod.rs:206-208 | shifting the top bit left by one gives zero |
| Words.ShiftLeftThenRight | src/virtual_machine/mod.rs:206-212 | shifting left and then right by the same amount gives back a word with no bits to lose |
| Words.ShiftRight | src/virtual_machine/mod.rs:210-212 | a logical right shift by less than 64 never increases the word |
| Words.Signed | src/virtual_machine/mod.rs:233-267 | the `isize` reading of a word lies in [-2^63, 2^63) and is congruent to the word modulo 2^64 |
| Words.FloatNeg | src/virtual_machine/mod.rs:153-156 | negating a double keeps its magnitude bits and flips its sign bit |
| OpCodes.CatalogIsContiguous | src/virtual_machine/op_codes.rs:12-98 | the 59 codes, in declaration order, are exactly 1, 2, ..., 59 |
| OpCodes.CatalogIsDistinct | src/virtual_machine/op_codes.rs:12-98 | no two instructions share a code |
| OpCodes.OpCodeRange | src/virtual_machine/op_codes.rs:12-98 | a word is an instruction code exactly when it lies in 1..59, so 0 is not one |
| OpCodes.OpCodesWithinCodeMask | src/virtual_machine/op_codes.rs:7-98 | every code is kept whole by CODE_MASK and has no TYPE_MASK bit |
| OpCodes.MasksAreDisjoint | src/virtual_machine/op_codes.rs:7-9 | CODE_MASK and TYPE_MASK select disjoint bits |
| OpCodes.Encode | src/virtual_machine/op_codes.rs:12-95 | every instruction the dispatch executes has a code in 1..58 |
| OpCodes.Decode | src/virtual_machine/mod.rs:112-441 | a word the dispatch recognises lies in 1..58 and selects a well-formed instruction |
| OpCodes.DecodeEncode | src/virtual_machine/mod.rs:112-441 | the dispatch selects, for the code of an instruction, that instruction |
| OpCodes.EncodeDecode | src/virtual_machine/mod.rs:112-441 | every word the dispatch recognises is the code of the instruction it selects |
| OpCodes.DecodeDomain | src/virtual_machine/mod.rs:112-441 | the dispatch recognises exactly the words 1..58 |
| OpCodes.DecodeDefinedExactly | src/virtual_machine/mod.rs:112-441 | the dispatch recognises every catalog code except DEREF, and no other word |
| OpCodes.OperandConsumersAreContiguous | src/virtual_machine/mod.rs:351-369 | the instructions that consume an operand word are exactly MOVE_OP_TO_AX..MOVE_OP_TO_DX |
| Chars.IntoChar | src/virtual_machine/into_char.rs:8-13 | words above `u32::MAX` give nothing; a word gives a character exactly when it is a Unicode scalar value, and then the character with that code point |
| Chars.FromU32 | src/virtual_machine/into_char.rs:12 | `char::from_u32` gives a character exactly for a Unicode scalar value, and then the character with that code point |
| Chars.CharCode | src/virtual_machine/image.rs:68-70 | `c as Word` is always a Unicode scalar value |
| Chars.IntoCharOfCharCode | src/virtual_machine/into_char.rs:8-13 | every character survives the trip through its code point |
| Chars.CharCodeOfIntoChar | src/virtual_machine/into_char.rs:8-13 | a word that reads as a character is that character's code point |
| ImageBuilder.Grow | src/virtual_machine/image.rs:131-148 | `resize(required, 0)` past the end: never shrinks, keeps every word, and the new words are zero |
| ImageBuilder.Overwrite | src/virtual_machine/image.rs:91-93 | writing a slice keeps the length, lands the data at its address, and keeps every other word |
| ImageBuilder.TailAfterGrow | src/virtual_machine/image.rs:74-78 | proof helper: after growing, the tail from the cursor is exactly as long as the data precisely when the copy fits |
| ImageBuilder.StrWords | src/virtual_machine/image.rs:65-71 | a string is stored one word per character, and each word reads back as its character |
| ImageBuilder.PatchAt | src/virtual_machine/image.rs:99-113 | a patch leaves the buffer as long as the longer of the old buffer and the patched range, with the data at its address |
| ImageBuilder.PatchAtEffect | src/virtual_machine/image.rs:99-102 | a patch keeps every word outside the patched range and zero-fills any gap before it |
| ImageBuilder.PatchAtEnd | src/virtual_machine/image.rs:25-46 | emitting at the end of the buffer appends |
| ImageBuilder.PatchAtTail | src/virtual_machine/image.rs:104-113 | when the copy fits, the patched buffer ends exactly where the data ends |
| ImageBuilder.Image.constructor | src/virtual_machine/image.rs:11-17 | a new image is empty, with cursor and entry point at 0 |
| ImageBuilder.Image.Clear | src/virtual_machine/image.rs:19-23 | clearing returns to the state of a new image |
| ImageBuilder.Image.PrepareSpace | src/virtual_machine/image.rs:131-137 | the buffer is grown with zeros to hold `words_count` words from the cursor |
| ImageBuilder.Image.PrepareSpaceInAddress | src/virtual_machine/image.rs:139-148 | the buffer is grown with zeros to hold `words_count` words from the address |
| ImageBuilder.Image.Emit | src/virtual_machine/image.rs:150-153 | writes the word at the cursor and advances the cursor by one |
| ImageBuilder.Image.EmitOpcode | src/virtual_machine/image.rs:25-32 | returns the old cursor, patches the opcode there, and advances the cursor by 1 |
| ImageBuilder.Image.EmitOpcodeWithOperand | src/virtual_machine/image.rs:34-46 | returns the old cursor, patches opcode and operand there, and advances the cursor by 2 |
| ImageBuilder.Image.EmitOpcodeWithTwoOperands | src/virtual_machine/image.rs:48-63 | returns the old cursor, patches opcode and both operands there, and advances the cursor by 3 |
| ImageBuilder.Image.EmitStr | src/virtual_machine/image.rs:65-83 | patches the string's code points at the cursor, advances the cursor by its length, and the buffer ends there |
| ImageBuilder.Image.EmitFromOther | src/virtual_machine/image.rs:85-97 | patches the other image's whole buffer at the cursor without adjusting addresses, and leaves the other image unchanged |
| ImageBuilder.Image.WriteWord | src/virtual_machine/image.rs:99-102 | patches one word at any address, growing the buffer with zeros if needed |
| ImageBuilder.Image.WriteData | src/virtual_machine/image.rs:104-113 | patches the data at the address, and the buffer ends where the data ends |
| ImageBuilder.Image.ReadWord | src/virtual_machine/image.rs:115-117 | returns the word at the address |
| ImageBuilder.Image.SetEntryPointHere | src/virtual_machine/image.rs:119-121 | the entry point becomes the cursor |
| Semantics.SetReg | src/virtual_machine/mod.rs:351-417 | writing a register changes that register only |
| Semantics.WriteChars | src/virtual_machine/mod.rs:456-469 | printing `cx` words from `dx` succeeds exactly when every one of them is in memory and is a character; the text then has `cx` characters, each read from its word |
| Semantics.UnaryResult | src/virtual_machine/mod.rs:124-204 | each one-operand result is undone by its partner: INC by a wrapping decrement, DEC by a wrapping increment, NEG by adding back to zero, NOT and FNEG by themselves |
| Semantics.BinaryResult | src/virtual_machine/mod.rs:136-212 | a binary operation aborts exactly when DIV meets a zero divisor or remainder or a shift amount is 64 or more; only DIV changes `bx`, to `ax % bx`; SHR and AND never increase `ax`, OR never decreases it |
| Semantics.Taken | src/virtual_machine/mod.rs:214-331 | JG, JL, FJG and FJL are never taken; JGE and JLE always are; FJGE and FJLE are taken exactly when `ax` is not a NaN |
| Semantics.SyscallStep | src/virtual_machine/mod.rs:450-491 | syscall 1 is the only read of input; codes above 2 and unprintable text abort; code 2 puts `dx` in `ax` and leaves memory; code 0 moves `dx` past the text, zeroes `cx` and extends the output by `cx` characters; no syscall touches memory or the stack pointers |
| Semantics.Exec | src/virtual_machine/mod.rs:112-439 | an instruction keeps the memory size, `fp` and `lp`; only PUSH and CALL write memory, only SYSCALL writes output, only PUSH, POP, CALL and RET move `sp` |
| Semantics.Step | src/virtual_machine/mod.rs:110-445 | one pass of the loop body keeps the memory size, `fp` and `lp`, and never takes `sp` above `max_address` |
| Semantics.Run | src/virtual_machine/mod.rs:110-447 | the loop halts only with `ip` at or past `max_address`; whatever state it stops in has the same memory size, `fp` and `lp`, and `sp` still within memory |
| Semantics.StackReset | src/virtual_machine/mod.rs:105-108 | `sp` and `fp` become `max_address` and `lp` one below; nothing else changes |
| Semantics.Execute | src/virtual_machine/mod.rs:105-448 | `execute` on an empty memory aborts; it halts only with `ip` at or past `max_address`; any state it stops in has `fp` at `max_address`, `lp` one below and `sp` within memory |
| Properties.UnknownWordAborts | src/virtual_machine/mod.rs:441 | a word outside the catalog, or DEREF, aborts with an unknown opcode |
| Properties.ZeroWordIsFatal | src/virtual_machine/mod.rs:441 | reaching a zero word (what unused memory holds) aborts the run |
| Properties.StepAdvancesBySize | src/virtual_machine/mod.rs:351-369 | an instruction that does not transfer control moves `ip` past its own words: 2 for immediate loads, 1 otherwise |
| Properties.UnaryTouchesOnlyAx | src/virtual_machine/mod.rs:124-204 | INC, DEC, NEG, NOT and FNEG change only `ax` and advance `ip` by one |
| Properties.BinaryTouchesOnlyAx | src/virtual_machine/mod.rs:136-212 | a binary operation steps exactly when its result is defined; it changes only `ax` (and `bx` for DIV) and advances `ip` by one |
| Properties.ArithmeticWraps | src/virtual_machine/mod.rs:124-146 | ADD, SUB, MUL, SHL, INC, DEC and NEG wrap around at 2^64 instead of aborting |
| Properties.DivDividesByRemainder | src/virtual_machine/mod.rs:148-151 | DIV leaves `ax % bx` in `bx` and makes `ax` the quotient of `ax` by that remainder |
| Properties.DivSevenByTwo | src/virtual_machine/mod.rs:148-151 | 7 DIV 2 leaves 7 in `ax` and 1 in `bx` |
| Properties.JumpLandsOnTarget | src/virtual_machine/mod.rs:214-331 | a jump changes only `ip`: to `dx` when taken, with no increment, otherwise to `ip + 1` |
| Properties.UnsignedJumpsCompareAxWithBx | src/virtual_machine/mod.rs:219-231 | JE, JNE, JA, JAE, JB and JBE compare `ax` with `bx`, and the opposite conditions are complements |
| Properties.PushThenPop | src/virtual_machine/mod.rs:114-122 | PUSH then POP restores `sp`, leaves the pushed value in `cx` and in the freed slot, and advances `ip` by two |
| Properties.CallThenRet | src/virtual_machine/mod.rs:333-345 | CALL pushes `ip + 1` and jumps to `dx`; a RET there returns to `ip + 1` with `sp` restored and `dx` holding the return address |
| Properties.MoveImmLoadsOperand | src/virtual_machine/mod.rs:351-369 | an immediate load puts the next word in its register and skips both words; nothing else in the state changes |
| Properties.MoveImmAtEndAborts | src/virtual_machine/mod.rs:351-369 | an immediate load whose operand lies past the end of memory aborts out of bounds |
| Properties.MoveCopiesRegister | src/virtual_machine/mod.rs:371-417 | a register move copies the source into the destination and advances `ip` by one; nothing else in the state changes |
| Properties.TerminateReturnsDx | src/virtual_machine/mod.rs:484-487 | syscall 2 ends the run at once, with `ax` holding the old `dx` and only `ax` and `ip` changed |
| Properties.UnknownSyscallAborts | src/virtual_machine/mod.rs:489 | a syscall code above 2 aborts |
| Properties.WriteCharsOfEmittedString | src/virtual_machine/mod.rs:456-469 | printing the words an emitted string occupies gives back that string |
| Properties.WriteSyscallNeedsChars | src/virtual_machine/mod.rs:456-469 | syscall 0 aborts when any word in its range is out of memory or not a character |
| Properties.WriteSyscallPrintsString | src/virtual_machine/mod.rs:456-469 | syscall 0 over an emitted string prints it, moves `dx` past it and leaves `cx` zero |
| Properties.RunUnfolds | src/virtual_machine/mod.rs:110-445 | proof helper: a successful step hands the rest of the budget to the next state |
| Properties.AddProgramReturnsFive | src/virtual_machine/mod.rs:105-447 | loading 2 and 3, adding, moving the sum to `dx` and calling syscall 2 returns 5 |
| Engine.VirtualMachine.WithMemory | src/virtual_machine/mod.rs:44-57 | `max_address` is the byte size divided by the word size; memory and registers start at zero |
| Engine.VirtualMachine.New | src/virtual_machine/mod.rs:60-62 | the default machine has 0x10000 bytes, that is 0x2000 words |
| Engine.VirtualMachine.LoadImage | src/virtual_machine/mod.rs:88-103 | an image longer than memory is refused with the message and nothing changes; otherwise its words replace the start of memory, the rest is kept, and `ip` becomes the entry point |
| Engine.VirtualMachine.Register | src/virtual_machine/mod.rs:371-417 | reads the named general register |
| Engine.VirtualMachine.SetRegister | src/virtual_machine/mod.rs:351-417 | writes the named general register |
| Engine.VirtualMachine.Divide | src/virtual_machine/mod.rs:148-151 | the in-place DIV faults exactly when the DIV semantics does, and otherwise leaves its quotient and remainder |
| Engine.VirtualMachine.Arithmetic | src/virtual_machine/mod.rs:136-212 | the in-place binary operations fault exactly when the semantics does, and otherwise leave its `ax` and `bx` |
| Engine.VirtualMachine.StepInPlace | src/virtual_machine/mod.rs:112-444 | one in-place pass of the loop body does what `Step` says: the same next state, the same fault, or a read of input |
| Engine.VirtualMachine.StackInPlace | src/virtual_machine/mod.rs:114-122 | PUSH, POP, CALL and RET in place follow `Exec` |
| Engine.VirtualMachine.ControlInPlace | src/virtual_machine/mod.rs:214-349 | the jumps and SYSCALL in place follow `Exec` |
| Engine.VirtualMachine.DataInPlace | src/virtual_machine/mod.rs:124-212 | the arithmetic, double and move instructions in place follow `Exec` |
| Engine.VirtualMachine.Pass | src/virtual_machine/mod.rs:110-445 | one pass of the loop keeps the outcome of the run: the rest of the budget from the new state reaches it, or the pass ends it |
| Engine.VirtualMachine.Loop | src/virtual_machine/mod.rs:110-447 | the in-place loop ends as `Run` does, returning `ax` when `ip` leaves memory, in the state `Run` gives |
| Engine.VirtualMachine.Execute | src/virtual_machine/mod.rs:105-448 | `execute` resets the stack pointers (aborting on an empty memory) and ends as `Semantics.Execute` does |
| Engine.VirtualMachine.Syscall | src/virtual_machine/mod.rs:450-491 | the in-place syscall does what `SyscallStep` says, before the common `ip += 1` |
| Engine.VirtualMachine.WriteString | src/virtual_machine/mod.rs:456-469 | the printing loop faults exactly when `WriteChars` does; otherwise it appends that text, moves `dx` past it and zeroes `cx` |
| Engine.LoopPass | src/virtual_machine/mod.rs:110-445 | proof helper: what one pass of the loop body means for the outcome of the run |
| Engine.ThenOneMore | src/virtual_machine/mod.rs:457-467 | proof helper: printing one more character moves it from what is left to print to what is printed |
| Session.AssembleAddProgram | src/virtual_machine/image.rs:25-46 | emitting the six instructions of the addition program with the image builder produces exactly its words, with the entry point at 0 |
| Session.AssembleLoadAndRun | src/virtual_machine/mod.rs:88-448 | assembling the addition program, loading it into a 128-byte machine and executing it returns 5 |

## Left out

- IEEE-754 arithmetic: FADD, FSUB, FMUL, FDIV and the casts CWTOR, CSWTOR, CRTOW and CRTOSW (`src/virtual_machine/mod.rs:158-188` and `419-439`) go through the `FloatUnit` parameter. Only their effect on registers and `ip` is modelled.
- `lexical_cast` (`src/virtual_machine/lexical_cast.rs`) is a bit-for-bit reinterpretation between types of the same size. Here it is the identity on words, plus `Signed` and the float helpers. Its `None` branch cannot be reached for `usize`, `isize` and `f64`.
- Syscall 1, which reads a line from standard input into memory, is not modelled. The step reports `NeedsInput`, and `execute` reports `ReadsLine`.
- Standard output is an abstract string `output`. `print!` and `flush` are not modelled. Characters printed before a panic inside syscall 0 are not kept, since the fault outcome carries no state.
- Engine.VirtualMachine.Execute: it says nothing of the machine's state after a panic, because the process ends there.
- Engine.VirtualMachine.Execute: the loop of `execute` need not terminate. Runs are bounded by `fuel`, and a run that needs more steps ends in `StepsExhausted`.
- Release builds, where `sp -= 1` at 0 and shifts of 64 or more wrap instead of panicking, are not modelled.
- ImageBuilder.Image.EmitStr: requires that the buffer does not extend past the end of the copied string. In the source, `copy_from_slice` panics when the tail from the cursor is longer than the string. This can happen after a `write_word` beyond the cursor. The same requirement applies to ImageBuilder.Image.EmitFromOther and ImageBuilder.Image.WriteData.
- ImageBuilder.Image.Emit: requires the cursor to be inside the buffer, which every caller ensures through `prepare_space`.
- ImageBuilder.Image.ReadWord: requires an address inside the buffer. The source panics otherwise.
- Image addresses are natural numbers. Overflow of `emit_address + words_count` and allocation failure are not modelled.
- `print_mnemonics` (`src/virtual_machine/image.rs:155-158`) is `todo!()` and has no behaviour to model.
- `get_image`, `get_entry_point` and the register getters of `VirtualMachine` are plain field reads; they are the fields themselves.
- `src/virtual_machine/byte_casts.rs` and `src/virtual_machine/get_bytes.rs` (byte-level conversions) are not part of this model. Neither is `load_to_file`, which `src/main.rs` calls but the source does not define.
- `src/main.rs` is a driver. The model's own driver is `Session.AssembleLoadAndRun`.
