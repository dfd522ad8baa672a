# CHIP-8 interpreter core in Dafny

This project models the instruction interpreter of a small Python CHIP-8 emulator (`src/chip8.py`) and proves properties about it.
It covers:

- the decoder that splits a 16-bit instruction word into nibbles;
- the machine state: 16 byte registers, 4 KiB of memory, a 16-entry call stack, the index register I, the program counter, the delay and sound timers, a 64×32 monochrome display and the pressed-key slot;
- construction with the built-in hexadecimal font;
- copying a program image to address 0x200;
- one fetch–decode–execute step over all 35 instructions.

The project has seven modules:

- `Bits`: the byte, nibble and word types, and the bitwise operators with their per-bit meaning.
- `Decoder`: `get_bytes`, `get_nnn` and `get_kk`, with `Encode`, which puts four nibbles back into a word and so inverts `get_bytes`.
- `Sprite`: the geometry of the sprite draw. It gives the pixel under each sprite bit with wrap-around at both edges, the inverse of that map, and the set of pixels a draw flips.
- `Machine`: the machine state as a value, with one function per instruction plus the dispatch (`Execute`) and the step (`Step`).
  - An instruction that runs off memory or off the stack ends in a `Raised` outcome. It keeps exactly the writes the interpreter would have made before raising.
- `Interpreter`: the class `Chip8`. Its registers, memory, stack and display are arrays and its other fields are updated in place.
  - Each method is proved to leave the state that the matching `Machine` function computes from the state before the call.
  - This includes the nested row/column loop of the sprite draw and the copy loops of the font, program load and register-block instructions.
- `Properties`: properties that relate several instructions or several steps. They cover call and return, draw twice, the key busy-wait, store then load, the font lookup, and a two-instruction program.
- `AsWritten`: the two places where the interpreter's arithmetic leaves the machine's ranges, exactly as written, next to the corrected forms `Machine` uses (see Findings).

Three deliberate choices:

- The random byte that `Cxkk` draws is a parameter of the step.
- The pressed key is a field (`None` when no key is down) that the host sets between steps.
- Reading the program file is not modelled: `LoadRom` takes the file's bytes.

Where the code and its documentation disagree, the model follows the code:

- 9xy0 compares Vx with itself and so never skips.
- The not-borrow branches of 8xy5 and 8xy7 do not write VF, so for x ≠ F it keeps its old value rather than being cleared.
- The key slot starts out holding key 0, not "no key".
- Drawing the same sprite twice restores the display. The second draw reports a collision exactly when some pixel under the sprite was dark before the first draw. It does not always report "no collision".

## Model

| member | source | states |
|---|---|---|
| `Bits.Or` | src/chip8.py:254-257 | a bit of the OR of two bytes is set exactly when it is set in either operand |
| `Bits.And` | src/chip8.py:260-263 | a bit of the AND of two bytes is set exactly when it is set in both operands |
| `Bits.Xor` | src/chip8.py:266-269 | a bit of the XOR of two bytes is set exactly when the operands differ in it |
| `Decoder.GetBytes` | src/chip8.py:3-10 | the four nibbles, each below 16, put back together (`b1·0x1000 + b2·0x100 + b3·0x10 + b4`) give the word |
| `Decoder.GetNnn` | src/chip8.py:13-17 | the address operand is below 0x1000 |
| `Decoder.GetKk` | src/chip8.py:20-24 | the immediate operand is the low byte of the encoded word |
| `Decoder.GetBytesEncode` | src/chip8.py:3-10 | decoding the encoding of any four nibbles gives them back, so no two nibble lists share a word |
| `Decoder.DecodeBytes` | src/chip8.py:6-9 | the word fetched from a high and a low byte splits into the two nibbles of each byte |
| `Decoder.NnnOfWord` | src/chip8.py:13-17 | the address operand of a word is its low 12 bits |
| `Decoder.KkOfWord` | src/chip8.py:20-24 | the immediate operand of a word is its low 8 bits |
| `Sprite.Target` | src/chip8.py:352 | the pixel under sprite row r, column c lies on the display; both coordinates wrap |
| `Sprite.CollisionBefore` | src/chip8.py:347-355 | no collision has been recorded before the loop visits its first sprite bit, as VF is cleared before the loop |
| `Sprite.Flipped` | src/chip8.py:348-356 | the display after the draw has every pixel; a draw of zero rows leaves it as it was |
| `Sprite.TargetOffsets` | src/chip8.py:352 | within one screen the pixel map is injective: the offsets of a target give back the sprite position |
| `Sprite.OffsetsTarget` | src/chip8.py:352 | every pixel is the target of its own offsets |
| `Sprite.DrawnStep` | src/chip8.py:350-356 | visiting one (row, col) of the draw loop adds exactly its target pixel to the flipped set, when the bit there is set |
| `Sprite.NotYetDrawn` | src/chip8.py:350-356 | a pixel has not been flipped before the loop reaches the sprite bit above it |
| `Sprite.CollisionStep` | src/chip8.py:353-355 | visiting one (row, col) raises the collision exactly when its bit is set over a lit pixel |
| `Sprite.RowDone` | src/chip8.py:348-350 | finishing column 7 of a row is the same as starting the next row, for both the flipped set and the collision |
| `Sprite.FlippedUnderSprite` | src/chip8.py:353-356 | a pixel under a set sprite bit is inverted by the draw |
| `Sprite.FlippedElsewhere` | src/chip8.py:353-356 | a pixel under no set sprite bit keeps its value |
| `Sprite.FlippedTwice` | src/chip8.py:356 | flipping the same sprite twice gives the display back |
| `Machine.InstallFont` | src/chip8.py:56-75 | the sixteen 5-byte glyphs sit at 0x50..0x9F and every other memory cell is unchanged |
| `Machine.Init` | src/chip8.py:38-51 | a fresh machine has PC 0x200, stack pointer 0, I = 0, both timers 0, key 0 in the key slot, the font at 0x50 and zero in every other memory cell, a zeroed stack, zero registers and a dark display |
| `Machine.LoadRom` | src/chip8.py:84-85 | image byte i lands at 0x200 + i as far as memory reaches and nothing else changes; success exactly when the image fits |
| `Machine.Opcode` | src/chip8.py:178 | the fetched word's high byte is memory[pc] and its low byte memory[pc + 1] |
| `Machine.Op00E0` | src/chip8.py:188-191 | every pixel is dark afterwards and nothing else changes |
| `Machine.Op00EE` | src/chip8.py:194-198 | a return faults exactly on an empty stack, and then changes nothing |
| `Machine.Op0nnn` | src/chip8.py:183-185 | the native-routine call changes nothing |
| `Machine.Op1nnn` | src/chip8.py:201-204 | only the PC changes, to nnn |
| `Machine.Op2nnn` | src/chip8.py:207-212 | a call faults exactly on a full stack (the write at `stack[16]` raises), and then changes nothing |
| `Machine.Op3xkk` | src/chip8.py:215-219 | only the PC changes, by 2 exactly when Vx == kk |
| `Machine.Op4xkk` | src/chip8.py:222-226 | only the PC changes, by 2 exactly when Vx != kk |
| `Machine.Op5xy0` | src/chip8.py:229-233 | only the PC changes, by 2 exactly when Vx == Vy |
| `Machine.Op6xkk` | src/chip8.py:236-239 | Vx becomes kk and no other register changes |
| `Machine.Op7xkk` | src/chip8.py:242-245 | Vx becomes Vx + kk, less 256 on overflow; no other register changes, VF included |
| `Machine.Op8xy0` | src/chip8.py:248-251 | Vx becomes Vy and no other register changes |
| `Machine.Op8xy1` | src/chip8.py:254-257 | each bit of Vx becomes the OR of that bit of Vx and Vy; other registers unchanged |
| `Machine.Op8xy2` | src/chip8.py:260-263 | each bit of Vx becomes the AND of that bit of Vx and Vy; other registers unchanged |
| `Machine.Op8xy3` | src/chip8.py:266-269 | each bit of Vx becomes the XOR of that bit of Vx and Vy; other registers unchanged |
| `Machine.Op8xy4` | src/chip8.py:272-277 | VF = 1 exactly when Vx + Vy ≥ 256, even when x is F; otherwise Vx = (Vx + Vy) mod 256; other registers unchanged |
| `Machine.Op8xy5` | src/chip8.py:280-287 | when Vx > Vy, VF = 1 (written last) and, for x ≠ F, Vx = Vx − Vy; otherwise Vx = (Vx − Vy) mod 256, which for x = F is the new VF, and for x ≠ F VF is unchanged; other registers unchanged |
| `Machine.Op8xy6` | src/chip8.py:291-295 | for x ≠ F, VF holds the old low bit and 2·Vx' + VF' = Vx; for x = F the shift leaves VF 0 |
| `Machine.Op8xy7` | src/chip8.py:298-305 | when Vx < Vy, VF = 1 (written last) and, for x ≠ F, Vx = Vy − Vx; otherwise Vx = (Vy − Vx) mod 256, which for x = F is the new VF, and for x ≠ F VF is unchanged; other registers unchanged |
| `Machine.Op8xyE` | src/chip8.py:308-312 | for x ≠ F, VF holds the old high bit and Vx' + 256·VF' = 2·Vx; for x = F, VF ends 2 or 0 |
| `Machine.Op9xy0` | src/chip8.py:315-319 | the instruction changes nothing: Vx is compared with itself, so it never skips |
| `Machine.OpAnnn` | src/chip8.py:322-325 | only I changes, to nnn |
| `Machine.OpBnnn` | src/chip8.py:328-331 | only the PC changes, to V0 + nnn without masking, so it can lie up to 0x10FE, past the end of memory |
| `Machine.OpCxkk` | src/chip8.py:334-338 | each bit of Vx becomes the AND of that bit of the random byte and kk; other registers unchanged |
| `Machine.SpriteRows` | src/chip8.py:348-349 | the number of sprite rows read before `memory[I + row]` raises: all n exactly when they fit in memory |
| `Machine.OpDxyn` | src/chip8.py:341-356 | a draw changes only the display and VF, which ends 0 or 1; it faults exactly when a sprite row lies past the end of memory |
| `Machine.OpEx9E` | src/chip8.py:359-363 | only the PC changes, by 2 exactly when the key slot holds Vx |
| `Machine.OpExA1` | src/chip8.py:366-370 | only the PC changes, by 2 exactly when the key slot does not hold Vx |
| `Machine.OpFx07` | src/chip8.py:373-376 | Vx becomes the delay timer and no other register changes |
| `Machine.OpFx0A` | src/chip8.py:379-384 | with no key pressed only the PC changes, moving back by 2; with key k Vx becomes k and no other register changes |
| `Machine.OpFx15` | src/chip8.py:387-390 | only the delay timer changes, to Vx |
| `Machine.OpFx18` | src/chip8.py:393-396 | only the sound timer changes, to Vx |
| `Machine.OpFx1E` | src/chip8.py:399-402 | I becomes I + Vx, less 0x10000 on overflow, and nothing else changes |
| `Machine.OpFx29` | src/chip8.py:405-408 | only I changes, to 0x50 + 5·Vx unmasked; for a digit Vx < 16 the five bytes at I lie inside the font table |
| `Machine.OpFx33` | src/chip8.py:411-419 | faults, changing nothing, exactly when I + 2 is past memory; otherwise three digits below 10 with 100·d0 + 10·d1 + d2 = Vx go to I..I+2 and no other cell changes |
| `Machine.BlockCount` | src/chip8.py:425-426 | the number of registers a block copy moves before `memory[I + i]` raises: all x + 1 exactly when I + x is in memory |
| `Machine.OpFx55` | src/chip8.py:422-426 | faults exactly when I + x is past memory; otherwise memory[I + i] = Vi for i ≤ x; cells outside I..I+x never change |
| `Machine.OpFx65` | src/chip8.py:429-433 | faults exactly when I + x is past memory; otherwise Vi = memory[I + i] for i ≤ x; registers above x never change |
| `Machine.Execute` | src/chip8.py:95-175 | whatever the instruction word, the state keeps its shape (register, memory, stack and display sizes) |
| `Machine.Fetched` | src/chip8.py:91-94 | the fetch moves the PC on by 2 and decrements the delay timer when positive, changing nothing else |
| `Machine.Step` | src/chip8.py:88-95 | a step raises FetchOutOfRange, changing nothing, exactly when the PC's word runs past memory; any other fault comes from the instruction executed |
| `Interpreter.Chip8.constructor` | src/chip8.py:38-51 | the fresh object holds the state `Machine.Init` describes |
| `Interpreter.Chip8.InitFont` | src/chip8.py:53-75 | the copy loop leaves memory as `Machine.InstallFont` describes |
| `Interpreter.Chip8.LoadRom` | src/chip8.py:78-85 | the copy loop leaves memory and the success flag as `Machine.LoadRom` describes |
| `Interpreter.Chip8.GetOpcode` | src/chip8.py:177-180 | returns `memory[pc]·256 + memory[pc+1]` from before the call and moves the PC on by 2 |
| `Interpreter.Chip8.Exec` | src/chip8.py:88-175 | one step in place leaves the state and outcome `Machine.Step` describes |
| `Interpreter.Chip8.Dispatch` | src/chip8.py:95-175 | the pattern match in place leaves the state and outcome `Machine.Execute` describes |
| `Interpreter.Chip8.Op0nnn` | src/chip8.py:183-185 | changes nothing |
| `Interpreter.Chip8.Op00E0` | src/chip8.py:188-191 | in place, as `Machine.Op00E0`: a fresh dark display |
| `Interpreter.Chip8.Op00EE` | src/chip8.py:194-198 | in place, as `Machine.Op00EE` |
| `Interpreter.Chip8.Op1nnn` | src/chip8.py:201-204 | the PC becomes nnn and nothing else changes |
| `Interpreter.Chip8.Op2nnn` | src/chip8.py:207-212 | in place, as `Machine.Op2nnn` |
| `Interpreter.Chip8.Op3xkk` | src/chip8.py:215-219 | in place, as `Machine.Op3xkk` |
| `Interpreter.Chip8.Op4xkk` | src/chip8.py:222-226 | in place, as `Machine.Op4xkk` |
| `Interpreter.Chip8.Op5xy0` | src/chip8.py:229-233 | in place, as `Machine.Op5xy0` |
| `Interpreter.Chip8.Op6xkk` | src/chip8.py:236-239 | in place, as `Machine.Op6xkk` |
| `Interpreter.Chip8.Op7xkk` | src/chip8.py:242-245 | in place, as `Machine.Op7xkk` |
| `Interpreter.Chip8.Op8xy0` | src/chip8.py:248-251 | in place, as `Machine.Op8xy0` |
| `Interpreter.Chip8.Op8xy1` | src/chip8.py:254-257 | in place, as `Machine.Op8xy1` |
| `Interpreter.Chip8.Op8xy2` | src/chip8.py:260-263 | in place, as `Machine.Op8xy2` |
| `Interpreter.Chip8.Op8xy3` | src/chip8.py:266-269 | in place, as `Machine.Op8xy3` |
| `Interpreter.Chip8.Op8xy4` | src/chip8.py:272-277 | in place, as `Machine.Op8xy4`, with VF written after Vx |
| `Interpreter.Chip8.Op8xy5` | src/chip8.py:280-287 | in place, as `Machine.Op8xy5` |
| `Interpreter.Chip8.Op8xy6` | src/chip8.py:291-295 | in place, as `Machine.Op8xy6`, with VF written before Vx |
| `Interpreter.Chip8.Op8xy7` | src/chip8.py:298-305 | in place, as `Machine.Op8xy7` |
| `Interpreter.Chip8.Op8xyE` | src/chip8.py:308-312 | in place, as `Machine.Op8xyE`, with VF written before Vx |
| `Interpreter.Chip8.Op9xy0` | src/chip8.py:315-319 | in place, as `Machine.Op9xy0`: nothing changes |
| `Interpreter.Chip8.OpAnnn` | src/chip8.py:322-325 | I becomes nnn and nothing else changes |
| `Interpreter.Chip8.OpBnnn` | src/chip8.py:328-331 | the PC becomes V0 + nnn, not masked, and nothing else changes |
| `Interpreter.Chip8.OpCxkk` | src/chip8.py:334-338 | in place, as `Machine.OpCxkk` |
| `Interpreter.Chip8.OpDxyn` | src/chip8.py:341-356 | the nested row/column XOR loop leaves the display, VF and outcome of the closed form `Machine.OpDxyn` |
| `Interpreter.Chip8.OpEx9E` | src/chip8.py:359-363 | in place, as `Machine.OpEx9E` |
| `Interpreter.Chip8.OpExA1` | src/chip8.py:366-370 | in place, as `Machine.OpExA1` |
| `Interpreter.Chip8.OpFx07` | src/chip8.py:373-376 | Vx becomes the delay timer and nothing else changes |
| `Interpreter.Chip8.OpFx0A` | src/chip8.py:379-384 | with no key the PC moves back by 2; with key k, Vx becomes k |
| `Interpreter.Chip8.OpFx15` | src/chip8.py:387-390 | the delay timer becomes Vx and nothing else changes |
| `Interpreter.Chip8.OpFx18` | src/chip8.py:393-396 | the sound timer becomes Vx and nothing else changes |
| `Interpreter.Chip8.OpFx1E` | src/chip8.py:399-402 | in place, as `Machine.OpFx1E` |
| `Interpreter.Chip8.OpFx29` | src/chip8.py:405-408 | I becomes 0x50 + 5·Vx, not masked, and nothing else changes |
| `Interpreter.Chip8.OpFx33` | src/chip8.py:411-419 | in place, as `Machine.OpFx33` |
| `Interpreter.Chip8.OpFx55` | src/chip8.py:422-426 | the copy loop leaves memory and the outcome as `Machine.OpFx55` describes |
| `Interpreter.Chip8.OpFx65` | src/chip8.py:429-433 | the copy loop leaves the registers and the outcome as `Machine.OpFx65` describes |
| `Properties.Run` | src/chip8.py:88-175 | running any number of steps keeps the state well-formed |
| `Properties.StepDecodes` | src/chip8.py:91-92 | a step executes the instruction whose nibbles are those of the two bytes at the PC |
| `Properties.StepPcAndTimers` | src/chip8.py:88-95 | every instruction that does not set the PC itself leaves it 2 further on; the delay timer ticks unless the instruction is Fx15; the sound timer changes only on Fx18 |
| `Properties.StepUnmatchedIsNoOp` | src/chip8.py:95-175 | a word matching no pattern changes nothing beyond the fetch's PC advance and timer tick |
| `Properties.CallThenReturn` | src/chip8.py:194-212 | a call pushes the return address and jumps; a return right after it restores the PC and the stack pointer |
| `Properties.StepCalls` | src/chip8.py:106-108 | a step on a word 2nnn performs the call with the nnn of that word |
| `Properties.StepReturns` | src/chip8.py:98-99 | a step on the word 00EE performs the return |
| `Properties.StepCallThenReturn` | src/chip8.py:88-212 | two steps over a call to a subroutine that starts with 00EE come back to the instruction after the call with the stack depth unchanged |
| `Properties.DrawEffect` | src/chip8.py:341-356 | exactly the pixels under set sprite bits are inverted, all others keep their value, and VF = 1 exactly when a set bit lands on a lit pixel |
| `Properties.CollidesBefore` | src/chip8.py:347-355 | the collision the draw loop accumulates over all rows is "some set bit lands on a lit pixel" |
| `Properties.DrawTwiceRestores` | src/chip8.py:341-356 | drawing the same sprite twice at the same place restores the display; the second draw reports a collision exactly when a pixel under the sprite was dark before the first |
| `Properties.KeyWaitStalls` | src/chip8.py:379-382 | with no key pressed a step on Fx0A changes only the delay timer: the PC advance is cancelled |
| `Properties.KeyWaitResumes` | src/chip8.py:379-384 | with key k pressed a step on Fx0A stores k in Vx and moves on by 2 |
| `Properties.KeyWaitHolds` | src/chip8.py:379-382 | any number of steps with no key pressed stay on Fx0A, with only the delay timer counting down to 0 |
| `Properties.KeySkipsComplementary` | src/chip8.py:359-370 | for every key slot and Vx exactly one of Ex9E and ExA1 skips |
| `Properties.StoreThenLoad` | src/chip8.py:422-433 | storing V0..Vx and loading them back from the same place changes nothing further |
| `Properties.LoadThenStore` | src/chip8.py:422-433 | loading V0..Vx and storing them back to the same place changes nothing further |
| `Properties.GlyphAddress` | src/chip8.py:405-408 | with the font in place and a digit in Vx, Fx29 points I at that digit's five glyph rows |
| `Properties.SetThenAdd` | src/chip8.py:236-245 | 6xkk then 7xkk on one register leaves the byte sum of the two immediates |
| `Properties.StepLoadsImmediate` | src/chip8.py:117-119 | a step on a word 6xkk performs 6xkk with the x and kk of that word |
| `Properties.StepAddsImmediate` | src/chip8.py:120-122 | a step on a word 7xkk performs 7xkk with the x and kk of that word |
| `Properties.ProgramLoaded` | src/chip8.py:38-85 | a four-byte program loaded into a fresh machine sits at 0x200 with the PC there |
| `Properties.SetAndAddProgram` | src/chip8.py:88-245 | loading `60 05 70 03` into a fresh machine and stepping twice leaves V0 = 8 and the PC at 0x204 |
| `AsWritten.SubtractAsWritten` | src/chip8.py:280-287 | the unmasked 8xy5 result lies in 1..256 and agrees with Vx − Vy modulo 256 |
| `AsWritten.SubtractNAsWritten` | src/chip8.py:298-305 | the unmasked 8xy7 result lies in 1..256 and agrees with Vy − Vx modulo 256 |
| `AsWritten.SubtractEscapesByte` | src/chip8.py:287 | the written subtraction leaves the byte range exactly when both operands are equal, producing 256 |
| `AsWritten.SubtractCorrectionAgrees` | src/chip8.py:280-305 | for unequal operands and x ≠ F the corrected 8xy5 and 8xy7 store in Vx what the written code stores, and VF is 1 after the strict branch and unchanged after the other, as written |
| `AsWritten.SubtractEqualOperands` | src/chip8.py:287 | V0 = V1 = 7: as written V0 becomes 256, corrected it becomes 0 |
| `AsWritten.ReturnAsWritten` | src/chip8.py:194-198 | the written return decrements the stack pointer and reads the slot that Python's negative indexing selects |
| `AsWritten.ReturnUnderflowWraps` | src/chip8.py:197-198 | a return on an empty stack as written sets the stack pointer to −1 and jumps to the last stack slot, while the corrected return faults |
| `AsWritten.ReturnCorrectionAgrees` | src/chip8.py:194-198 | whenever the stack is non-empty the corrected return does exactly what the written one does |

## Left out

- The host program (`src/vm.py`) is not part of this model. It holds the window, the rendering, the keyboard-to-key mapping and the frame loop that calls the step. It is host I/O, so the model has the key slot as a field the host writes and the step as a function called once per frame.
- The command-line entry point (`src/emulator.py`) and the packaging metadata (`setup.py`) are not part of this model: they contain no machine behaviour.
- `src/chip-8.hpp` declares a C++ interface without bodies, so there is no behaviour to model.
- Opening and reading the program file in `load_rom` is I/O: `LoadRom` takes the file's bytes as a sequence.
- `random.randint` in Cxkk is replaced by a random byte passed to the step.
- Machine.Op8xy5: when Vx = Vy the interpreter stores 256 in Vx. The model stores 0, the value masked to a byte. What a later instruction would do with a register holding 256 is not modelled; the written value is shown by `AsWritten.SubtractAsWritten`.
- Machine.Op8xy7: same as Op8xy5, with Vy − Vx; shown by `AsWritten.SubtractNAsWritten`.
- Machine.Op00EE: a return on an empty stack continues in the interpreter, with stack pointer −1 and a PC taken from the last stack slot. The model stops with a `StackUnderflow` fault instead. The written behaviour is shown by `AsWritten.ReturnAsWritten`.
- A Python `IndexError` becomes a `Raised` outcome that ends the run (`Properties.Run` stops there). The host's reaction to the exception is host behaviour.
- The interpreter has no way to tell a negative PC from a large one: Python would read `memory[-1]` for a negative address. The model's PC is a natural number, and the only instruction that subtracts from it (Fx0A) undoes the fetch's +2.

## Findings

| source | as written | input that shows it | evidently intended | confidence | as-written member | corrected member |
|---|---|---|---|---|---|---|
| src/chip8.py:287, src/chip8.py:305 | the not-borrow branch of 8xy5 and 8xy7 stores `0x100 + a − b` without masking | V0 = V1 = 7, instruction 8015: V0 becomes 256 | the difference modulo 256, so V0 = 0 | high, not executed | `AsWritten.SubtractEqualOperands` | `Machine.Op8xy5` |
| src/chip8.py:197-198 | 00EE decrements the stack pointer with no check and reads `stack[stack_pointer]` | stack pointer 0, instruction 00EE: the stack pointer becomes −1 and the PC is read from `stack[15]` | a return with an empty stack is an error, like the call with a full stack that raises | medium, not executed | `AsWritten.ReturnUnderflowWraps` | `Machine.Op00EE` |
