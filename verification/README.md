# GrumpyVM in Dafny

A model of the core of GrumpyVM, a small stack machine written in Rust. The
model covers two parts:

- **The instruction set and its byte codec** (`isa.rs`). This covers
  values, operators and the 16 native instructions. It also covers the
  `to_*` extractors, the `ToBytes`/`FromBytes` implementations for
  `u32`, `i32`, `Unop`, `Binop`, `Val` and `Instr`, and `FromBytes` for
  `Vec<Instr>`.
- **The executor** (`vm.rs`). This covers the machine state and the checked
  `push`/`pop`, `unop` and `binop`. It also covers the fetch/increment/
  dispatch loop `exec` and the entry point `run`, called as
  `run(Debug::NODEBUG, …)`, without the state printing of `Debug::DEBUG`.

Files:

| file | module | contents |
|---|---|---|
| `results.dfy` | `Results` | `Option`, and `Result` with `Ok`, `Err` and `Panic` |
| `isa.dfy` | `Isa` | machine-word types, `Val`, `Unop`, `Binop`, `Instr`, extractors |
| `codec.dfy` | `Codec` | encoders, decoders and round-trip lemmas; the `Get`/`Set` opcode finding |
| `vm.dfy` | `Vm` | `State`, stack primitives, operator evaluation, `Step`, `Exec`, `RunProgram` |
| `vm_facts.dfy` | `VmFacts` | per-instruction and multi-step properties of the executor |

## Conventions

- **Errors and panics.** A failure the Rust code returns as `Err(String)` is
  `Err(msg)`, with the same message text. An abort that a debug build of the
  Rust code performs is `Panic(msg)`. Those aborts are an overflowing `i32`,
  `u32` or `usize` operation, a division by zero, an out-of-range index, and
  the value encoder's `panic!`. Decoding errors are `Err` with the
  `ParseError` message.
- **Integer widths.** Integer widths are subset types: `byte`, `u32`,
  `i32`, and `usize` on a 64-bit target. A cast like `i as usize` is written
  out as sign extension (`Vm.AsUsize`).
- **Decoders.** Each decoder takes a byte sequence. It returns the decoded
  item together with the bytes it did not consume, which stands in for
  the Rust iterator.
- **Executing instructions.** `Vm.Step(prog, s)` is one turn of the `exec`
  loop. It checks pc against the program length, fetches the instruction,
  increments pc (which panics on `u32` overflow) and dispatches. The result
  is `Continue(next)`, or `Stop(final)` at `Halt`.
- **Running programs.** `Vm.Exec` iterates `Step` for at most `fuel` turns,
  as `exec` does in `Debug::NODEBUG` mode.
  `Vm.RunProgram` runs from `Init()` and, at `Halt`, pops the answer the way
  `run` does.

## Where the code and its description differ

The model follows the code in each of these cases, and the lemmas named
here pin down what the code does.

- **`Binary` operand order.** `Binary(b)` applies `b` to (top, second), so
  `push a; push b; binary sub` leaves `b - a` (`VmFacts.BinaryTopIsLeftOperand`,
  `VmFacts.SubIsTopMinusSecond`).
- **`Lt`.** `Lt` computes `<=`, not `<` (`VmFacts.LtIsAtMost`).
- **`Peek`.** `Peek(i)` copies `stk[i]`, counting from the bottom of the
  stack. The doc comment at isa.rs:77 says it counts from the top
  (`VmFacts.PeekCopiesFromBottom`).
- **`SetFrame`.** `SetFrame(i)` pushes the old fp and then sets fp to the
  stack length before that push, minus `i` (`VmFacts.SetFrameSetsFp`).
- **Calling convention.** `Ret` pops the return value, then pc, then fp.
  So the convention that works is caller-side `SetFrame(n); Push(Vloc(f));
  Call`, with the callee returning via `Push(v); Ret`
  (`VmFacts.CallerEnters`, `VmFacts.CalleeReturns`,
  `VmFacts.CallReturnDiscipline`). A callee-side `SetFrame 0` does not
  produce this layout.
- **Result of `run`.** `run` pops only the top value at `Halt`. Values below
  it are ignored, not reported (`VmFacts.RunReturnsTopOfStack`).
- **Division by zero.** Division by zero is the Rust panic
  (`VmFacts.DivByZeroPanics`). Division rounds toward zero
  (`VmFacts.DivRoundsTowardZero`).

## Model

| member | source | states |
|---|---|---|
| `Isa.ToI32` | isa.rs:41-46 | succeeds exactly on `Vi32`, and the value is that payload |
| `Isa.ToBool` | isa.rs:48-53 | succeeds exactly on `Vbool`, and the value is that payload |
| `Isa.ToLoc` | isa.rs:55-60 | succeeds exactly on `Vloc`, and the value is that payload |
| `Isa.ToAddress` | isa.rs:62-67 | succeeds exactly on `Vaddr`, and the value is that payload |
| `Results.OkOr` | vm.rs:76-77 | `ok_or(msg)?` fails with `msg` exactly when the option is empty, and otherwise yields its content |
| `Codec.U32Bytes` | isa.rs:297-303 | a `u32` is written as exactly four bytes; `Codec.BigEndianBijection` pins them as its big-endian digits |
| `Codec.BigEndianBijection` | isa.rs:297-303 | writing a `u32` big-endian and reading four bytes back are inverse, in both directions |
| `Codec.DecodeU32` | isa.rs:411-421 | succeeds exactly when 4 bytes remain; the input is then the value's encoding followed by the unread rest; otherwise "not enough bytes" |
| `Codec.U32RoundTrip` | isa.rs:297-303 | decoding the encoding of any `u32`, followed by any bytes, gives back the value and exactly those bytes |
| `Codec.I32OfBits` | isa.rs:423-433 | the `i32` read from four bytes has the bit pattern of those bytes |
| `Codec.I32Bytes` | isa.rs:305-311 | four bytes, whose first byte's top bit is the sign |
| `Codec.DecodeI32` | isa.rs:423-433 | succeeds exactly when 4 bytes remain, consuming exactly an `i32` encoding; otherwise "not enough bytes" |
| `Codec.I32RoundTrip` | isa.rs:305-311 | decoding the encoding of any `i32` gives back the value and the rest |
| `Codec.DecodeUnop` | isa.rs:435-443 | accepts exactly the byte 0x00 and consumes one byte; an empty input is "not enough bytes"; never panics |
| `Codec.EncodeUnop` | isa.rs:313-319 | the one operator `Neg` is the single byte 0x00, the byte the decoder accepts |
| `Codec.UnopRoundTrip` | isa.rs:313-319 | every unary operator round-trips through its encoding |
| `Codec.DecodeBinop` | isa.rs:445-458 | accepts exactly the bytes 0x00 to 0x05, consuming the encoding of the operator it returns; never panics |
| `Codec.EncodeBinop` | isa.rs:321-332 | an operator is one byte in the decoder's range 0x00 to 0x05, and distinct operators get distinct bytes |
| `Codec.BinopRoundTrip` | isa.rs:321-332 | every binary operator round-trips through its encoding |
| `Codec.EncodeVal` | isa.rs:334-354 | a value's encoding is 5 bytes for `Vi32` and `Vloc` and 1 byte otherwise, with a tag of at most 0x05 |
| `Codec.ValToBytes` | isa.rs:334-354 | the encoder panics exactly on `Vsize` and `Vaddr`; every other value's bytes decode back to it |
| `Codec.DecodeVal` | isa.rs:460-473 | fails on an empty input or an unknown tag; on success the value is a program value and the input is its encoding followed by the rest; never panics |
| `Codec.ValRoundTrip` | isa.rs:334-354 | every program value round-trips through its encoding, leaving the following bytes unread |
| `Codec.ValOperandTruncated` | isa.rs:465-468 | a `Vi32` or `Vloc` tag with fewer than four operand bytes is "not enough bytes" |
| `Codec.EncodeInstrAsWritten` | isa.rs:356-405 | `Instr::to_bytes` as written: every instruction except `Get` and `Set` is encoded as the corrected encoder does, and `Get` and `Set` are each written with the other's opcode (see ## Findings) |
| `Codec.EncodeInstr` | isa.rs:356-405 | `Instr::to_bytes` with the corrected opcode table (see ## Findings): an instruction's encoding is 1 to 6 bytes, starting with an opcode of at most 0x0F, the decoder's opcode table |
| `Codec.Nullary` | isa.rs:480-494 | the opcodes without an operand name instructions whose opcode is that byte and whose operand is empty |
| `Codec.DecodeOperand` | isa.rs:478-495 | an opcode above 0x0F is an error; on success the instruction has that opcode and the input is its operand followed by the rest |
| `Codec.DecodeInstr` | isa.rs:475-498 | fails on empty input or an opcode above 0x0F; on success the input is the instruction's encoding followed by the rest; never panics |
| `Codec.InstrRoundTrip` | isa.rs:475-498 | with the corrected opcode table, every encodable instruction decodes back to itself and consumes exactly its encoding |
| `Codec.InstrToBytes` | isa.rs:356-405 | `Instr::to_bytes` with the corrected opcode table (see ## Findings): encoding panics exactly on a `Push` of a heap value, and with that table every other instruction's bytes decode back to it |
| `Codec.AsWrittenRoundTrip` | isa.rs:382-383 | with the opcode table as written, decoding returns the instruction with `Get` and `Set` exchanged; it round-trips exactly when it is neither `Get` nor `Set` |
| `Codec.AsWrittenGetDecodesAsSet` | isa.rs:486-487 | the as-written encoding of `Get` is `[0x07]`, which decodes as `Set`, and that of `Set` decodes as `Get` |
| `Codec.EncodeProgram` | isa.rs:503-508 | the program format takes at least 4 bytes plus one per instruction |
| `Codec.DecodeInstrs` | isa.rs:505-508 | reads exactly `n` encodable instructions, consuming exactly their encodings; fails with "not enough bytes" when input runs out |
| `Codec.DecodeProgram` | isa.rs:500-512 | fails on fewer than 4 bytes; on success the input is the program's count and instructions followed by the unread rest; never panics |
| `Codec.InstrsRoundTrip` | isa.rs:505-508 | decoding `|p|` instructions from the encodings of `p` gives back `p` and the rest |
| `Codec.ProgramRoundTrip` | isa.rs:500-512 | decoding an encoded program gives back the program and leaves the following bytes unread |
| `Codec.ProgramPrefixRejected` | isa.rs:500-512 | every strict prefix of an encoded program fails to decode |
| `Codec.DecodedPrefixExtends` | isa.rs:500-512 | appending bytes to a successfully decoded input does not change the program, and the bytes join the unread rest |
| `Vm.Init` | vm.rs:41-49 | the machine starts at instruction 0 with fp 0, an empty stack and an empty heap, within the bounds `Vm.Exec` keeps |
| `Vm.StackPop` | vm.rs:59-61 | pop succeeds exactly on a non-empty stack; otherwise "attempt to pop empty stack" |
| `Vm.StackPush` | vm.rs:51-57 | push succeeds exactly below 1024 values; otherwise "out of stack space" |
| `Vm.PushThenPop` | vm.rs:51-61 | a push followed by a pop returns the pushed value and the original state |
| `Vm.PopThenPush` | vm.rs:51-61 | a pop followed by pushing the popped value restores the state |
| `Vm.CheckI32` | vm.rs:79-81 | an `i32` result is kept exactly when it is in range; otherwise the overflow panic |
| `Vm.AddU32` | vm.rs:98 | `u32` addition succeeds exactly below 2^32; otherwise the overflow panic |
| `Vm.AddUsize` | vm.rs:131 | `usize` addition succeeds exactly below 2^64; otherwise the overflow panic |
| `Vm.AsUsize` | vm.rs:130 | `i as usize` keeps a non-negative `i`, maps a negative one to 2^64 or more minus 2^31, and is congruent to `i` modulo 2^64 |
| `Vm.DivTrunc` | vm.rs:82 | the quotient leaves a remainder smaller than the divisor in magnitude and never of opposite sign to the dividend (rounding toward zero); for `i32` operands it fits in an `i32` exactly unless the division is `i32::MIN / -1` |
| `Vm.EvalUnop` | vm.rs:65-72 | `Neg` succeeds exactly on a boolean and negates it; otherwise "expected bool" |
| `Vm.EvalBinop` | vm.rs:75-86 | non-integer operands are "expected i32"; on integers x (first) and y, `Add`, `Sub` and `Mul` give x+y, x-y, x*y when it fits in an `i32` and otherwise the overflow panic; `Div` panics on y = 0 and on `i32::MIN / -1` and otherwise gives the quotient rounded toward zero; `Lt` gives x <= y and `Eq` gives x == y |
| `Vm.Step` | vm.rs:94-98 | pc past the end is "pc out of bounds" (the `Debug::NODEBUG` outcome); the loop stops exactly at `Halt`; non-jumps advance pc by one; only `Alloc` and `Set` touch the heap, which never shrinks; the stack and heap bounds are kept |
| `Vm.Dispatch` | vm.rs:99-226 | the same facts for one dispatched instruction, with pc already incremented |
| `Vm.StackOp` | vm.rs:100-126 | `Push`, `Pop`, `Peek` and `Swap` change only the stack and keep it within bounds |
| `Vm.ArithOp` | vm.rs:109-120 | `Unary` and `Binary` change only the stack, which does not grow and holds the result |
| `Vm.FrameOp` | vm.rs:177-198 | `Var`, `Store` and `SetFrame` change only the stack and fp, and keep the bounds |
| `Vm.ControlOp` | vm.rs:199-224 | `Call`, `Ret` and `Branch` leave the heap alone and never grow the stack |
| `Vm.ExecAlloc` | vm.rs:127-139 | a successful `Alloc` strictly extends the heap within its capacity and replaces two stack values by one |
| `Vm.ArraySlot` | vm.rs:141-156 | a slot is found only for an address holding a size header and a non-negative index below that size, and it is `base + ix + 1`, inside the heap |
| `Vm.ExecSet` | vm.rs:140-157 | a successful `Set` keeps the heap size, pops three values and leaves pc and fp alone |
| `Vm.ExecGet` | vm.rs:158-176 | a successful `Get` leaves the heap unchanged and replaces two stack values by one |
| `Vm.Exec` | vm.rs:88-227 | the loop keeps the machine's bounds (at most 1024 stack values, fewer than 1024 heap slots) from a state that meets them, and the heap never shrinks during a run; with no fuel left it takes no step |
| `Vm.ExecHaltsAtHalt` | vm.rs:88-227 | a run that halts does so by executing a `Halt`, with pc just past it, and its heap has not shrunk |
| `Vm.RunProgram` | vm.rs:231-235 | `run` with no fuel gives no answer, and a run that answers has a `Halt` in its program |
| `VmFacts.RunPopsHaltedTop` | vm.rs:231-235 | for every program, `run` reports the loop's failure, pops the top of the stack `Halt` left (the pop error when that stack is empty), or gives no answer while fuel lasts |
| `VmFacts.RunKeepsBounds` | vm.rs:231-233 | every run from the initial state keeps those bounds |
| `VmFacts.ExecContinues` | vm.rs:90-98 | a turn of the loop that continues consumes one unit of fuel and resumes from the next state |
| `VmFacts.ExecEnds` | vm.rs:90-98 | a turn that halts or fails ends the run the same way whatever fuel remains |
| `VmFacts.ExecOneMore` | vm.rs:90-227 | once a run has halted or failed, one more unit of fuel gives the same outcome |
| `VmFacts.ExecFuelMonotone` | vm.rs:90-227 | once a run has halted or failed, more fuel gives the same outcome |
| `VmFacts.PushAppends` | vm.rs:100-103 | `Push(v)` below capacity appends v and advances pc |
| `VmFacts.PushOnFullStackFails` | vm.rs:100-103 | `Push` on a full stack is "out of stack space" |
| `VmFacts.PopDiscardsTop` | vm.rs:104 | `Pop` removes the top value, leaving the rest of the stack, the heap and fp alone |
| `VmFacts.PopNeedsValue` | vm.rs:104 | `Pop` on an empty stack is "attempt to pop empty stack" |
| `VmFacts.RunOffTheEnd` | vm.rs:94-96 | in `Debug::NODEBUG` mode, running past the last instruction is "pc out of bounds", not an implicit halt |
| `VmFacts.HaltStops` | vm.rs:225 | `Halt` stops the loop at once, with pc already incremented |
| `VmFacts.RunReturnsTopOfStack` | vm.rs:231-235 | `push a; push b; halt` answers b, for any fuel of at least 3; a is ignored |
| `VmFacts.RunEmptyStackFails` | vm.rs:234 | `halt` on an empty stack makes `run` fail with "attempt to pop empty stack" |
| `VmFacts.PushesStack` | vm.rs:100-103 | two leading pushes leave their values in push order, with pc at 2 |
| `VmFacts.ExecAdds` | vm.rs:115-120 | `push a; push b; binary add; halt` halts with only a + b on the stack when the sum fits in an `i32` |
| `VmFacts.RunAdds` | vm.rs:231-235 | that program answers a + b for any fuel of at least 4 |
| `VmFacts.SwapExchangesTopTwo` | vm.rs:121-126 | `Swap` exchanges the two top values and leaves the rest alone |
| `VmFacts.SwapNeedsTwo` | vm.rs:121-123 | `Swap` on fewer than two values is "attempt to pop empty stack" |
| `VmFacts.SwapTwiceRestores` | vm.rs:121-126 | two `Swap`s in a row restore the stack |
| `VmFacts.PeekCopiesFromBottom` | vm.rs:105-108 | `Peek(i)` pushes a copy of `stk[i]`, counted from the bottom, and panics when `i` is past the top |
| `VmFacts.BinaryTopIsLeftOperand` | vm.rs:115-120 | `Binary(op)` over `a b` (b on top) computes `op(b, a)`, replacing both operands by the result, or fails as the operator fails |
| `VmFacts.SubIsTopMinusSecond` | vm.rs:81 | `Binary(Sub)` over `a b` leaves `b - a` |
| `VmFacts.LtIsAtMost` | vm.rs:83 | `Binary(Lt)` over `a b` leaves `b <= a`, so equal operands compare true |
| `VmFacts.DivByZeroPanics` | vm.rs:82 | `Binary(Div)` with a zero second value panics with "attempt to divide by zero" |
| `VmFacts.DivRoundsTowardZero` | vm.rs:82 | `Binary(Div)` of -7 by 2 leaves -3 |
| `VmFacts.BinaryNeedsIntegers` | vm.rs:76-77 | any non-integer operand makes a binary operator fail with "expected i32" |
| `VmFacts.NegFlips` | vm.rs:109-114 | `Unary(Neg)` negates a boolean on top and rejects any other value with "expected bool" |
| `VmFacts.NegTwiceRestores` | vm.rs:65-72 | two `Neg`s in a row restore the stack |
| `VmFacts.AllocAppendsBlock` | vm.rs:127-135 | `Alloc` over `n v` appends a size header and n copies of v to the heap and pushes the header's address |
| `VmFacts.AllocTooLargeFails` | vm.rs:130-138 | an allocation that does not fit is "out of heap space", or the `usize` overflow panic for a negative size that wraps |
| `VmFacts.AllocNeedsIntegerSize` | vm.rs:127-129 | `Alloc` with a non-integer size is "expected i32" |
| `VmFacts.SetWritesOneSlot` | vm.rs:140-147 | `Set` over `base ix v` writes v into slot base+ix+1 only and pops all three |
| `VmFacts.GetReadsSlot` | vm.rs:158-166 | `Get` over `base ix` replaces them by the value in slot base+ix+1 |
| `VmFacts.SlotPastEnd` | vm.rs:146-150 | an index at or past the array's size is "index past end of array" |
| `VmFacts.ArraySlotFailures` | vm.rs:141-156 | each failure of the slot lookup, in check order: "expected i32", "expected address", the `usize` overflow panic, "indexing past end of heap", the index panic when `base` is past the heap, "expected size at array location", "index past end of array", and the index panic when the slot is past the heap |
| `VmFacts.GetSetReportSlotFailure` | vm.rs:140-176 | when the slot lookup fails, `Get` and `Set` fail with that same error or panic |
| `VmFacts.IndexPastEndRejected` | vm.rs:140-168 | `Get` and `Set` both reject such an index with that message |
| `VmFacts.SetThenGetReadsBack` | vm.rs:140-176 | after `Set` stores v at an index, `Get` of the same index reads v |
| `VmFacts.AllocThenGetReadsInit` | vm.rs:127-176 | every element of a fresh array reads as its initial value |
| `VmFacts.SetFrameSetsFp` | vm.rs:194-198 | `SetFrame(i)` pushes the old fp and sets fp to the previous stack length minus i, panicking when that is negative |
| `VmFacts.VarReadsLocal` | vm.rs:177-180 | `Var(i)` pushes a copy of the stack value at fp+i |
| `VmFacts.VarPastEndFails` | vm.rs:179-183 | `Var(i)` at or past the top is "variable access past end of stack" |
| `VmFacts.StoreWritesLocal` | vm.rs:185-192 | `Store(i)` pops first, then overwrites fp+i of the shorter stack, or is "store past end of stack" |
| `VmFacts.StoreThenVarReadsBack` | vm.rs:177-193 | `Store(i); Var(i)` reads back the stored value |
| `VmFacts.CallPushesReturnAddress` | vm.rs:199-202 | `Call` pops the target, pushes the incremented pc and jumps |
| `VmFacts.CallNeedsLocation` | vm.rs:203-205 | `Call` on a non-location is "expected loc for call target" |
| `VmFacts.RetRestoresFrame` | vm.rs:207-212 | `Ret` cuts the stack to fp, restores the saved pc and fp and pushes the return value |
| `VmFacts.RetNeedsLocations` | vm.rs:207-215 | `Ret` whose saved pc or fp is not a location is "expected location for pc and fp in return" |
| `VmFacts.RetNeedsThree` | vm.rs:207 | `Ret` on fewer than three values is "attempt to pop empty stack" |
| `VmFacts.BranchNeedsLocationAndBool` | vm.rs:217-221 | `Branch` with a non-location target is "expected location", and with a location target but a non-boolean condition is "expected bool" |
| `VmFacts.BranchJumpsIffTrue` | vm.rs:217-224 | `Branch` pops both values and jumps exactly when the condition is true |
| `VmFacts.CallerEnters` | vm.rs:194-202 | `SetFrame(n); Push(Vloc(f)); Call` enters f with fp at the first argument and the saved fp and return address on top |
| `VmFacts.CalleeReturns` | vm.rs:207-212 | `Push(v); Ret` in the callee returns to the saved pc and fp, with the frame discarded and v on top |
| `VmFacts.CallReturnDiscipline` | vm.rs:194-216 | a complete call and return resumes after `Call` with the caller's fp, the arguments replaced by the return value, and the heap unchanged |

## Left out

- Text syntax is not modelled: the `FromStr` implementations for values,
  operators and instructions, and `parse_label` (isa.rs:148-291). They
  parse the assembly text, which is outside the byte/executor core.
- `PInstr`, labels and the assembler are not modelled. `assemble.rs` is
  not part of this model; its body is `unimplemented!()`.
- `main.rs` and `lib.rs` are not modelled: file reading, command-line
  handling and the trait declarations. `ParseError` is modelled as its
  message string.
- `Debug::DEBUG` mode is not modelled; the model is `run(Debug::NODEBUG, …)`.
  In `Debug::DEBUG` mode, `exec` prints the state through `Display` before
  the pc check (vm.rs:91-94). `Display` indexes `prog[pc]` (vm.rs:26). So
  a pc at or past the end of the program panics with an index out of
  bounds instead of returning "pc out of bounds". That covers an empty
  program, running off the end, and a `Call`, `Branch` or `Ret` to a target
  past the end. `main.rs:24` calls `run` in that mode. Apart from that
  panic, the printing only produces output.
- The model follows a debug build of the Rust code, where arithmetic
  overflow panics. A release build would wrap instead; that behaviour is
  not modelled.
- `usize` is modelled as 64 bits wide. A 32-bit target is not modelled.
- On a failed read, the Rust decoders leave the iterator partly consumed.
  The model returns only the error and says nothing about what was
  consumed.
- There is no `ToBytes` for `Vec<Instr>` in the source.
  `Codec.EncodeProgram` is the format that `FromBytes for Vec<Instr>` reads:
  the count, then the instructions.
- The program is passed to `Step` and `Exec` alongside the state instead of
  being stored in it. It never changes during a run.
- Vm.Exec: bounded by `fuel` turns of the loop, where the Rust loop is
  unbounded. A run that has not halted within the fuel is reported as
  `FuelSpent` or `FuelOut`. `VmFacts.ExecFuelMonotone` shows that extra
  fuel never changes a halted or failed outcome. Non-termination itself is
  not modelled.
- Vm.Dispatch: like `Vm.Step` and the group functions `Vm.StackOp`,
  `Vm.ArithOp`, `Vm.FrameOp` and `Vm.ControlOp`, it states frame conditions
  (what does not change, and the bounds) rather than each instruction's
  full effect. The `VmFacts` lemmas state each instruction's success case
  for a stack of the shape it expects, and the `Err` and `Panic` outcomes
  of the checks it makes itself.
  Some outcomes have no lemma of their own; they come from the primitives'
  contracts (`Vm.StackPop`, `Vm.StackPush`, `Vm.AddU32`):
  - the pop error on too short a stack, which has a lemma only for `Pop`,
    `Swap` and `Ret`;
  - "out of stack space" for `Peek`, `Var` and `SetFrame` on a full stack;
  - the `u32` overflow panics of `fp + i` in `Var` and `Store`, and of the
    pc increment.

## Findings

| source | as written | input that shows it | evidently intended | confidence | as-written member | corrected member |
|---|---|---|---|---|---|---|
| isa.rs:382-383 | `Instr::to_bytes` writes `Get` as 0x07 and `Set` as 0x08. `Instr::from_bytes` (isa.rs:486-487) reads 0x07 as `Set` and 0x08 as `Get`. | `Get` encodes to `[0x07]`, which decodes as `Set`; `Set` encodes to `[0x08]`, which decodes as `Get` | encoder and decoder use one table (0x07 `Set`, 0x08 `Get`, the declaration order of `Instr`), so every instruction round-trips | high; not executed | `Codec.EncodeInstrAsWritten`, `Codec.AsWrittenRoundTrip`, `Codec.AsWrittenGetDecodesAsSet` | `Codec.EncodeInstr`, `Codec.InstrRoundTrip` |
