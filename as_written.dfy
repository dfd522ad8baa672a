/** Two operations as the interpreter writes them, where the written arithmetic escapes the
    machine's ranges, side by side with the corrected forms the machine model uses. */
module AsWritten {
  import opened Bits
  import opened Machine

  /** The value 8xy5 writes to Vx, unmasked: `Vx - Vy` when Vx > Vy, else `0x100 + Vx - Vy`. */
  function SubtractAsWritten(vx: Byte, vy: Byte): (r: int)
    ensures r % 0x100 == (vx - vy) % 0x100
    ensures 0 < r <= 0x100
  {
    if vx > vy then vx - vy else 0x100 + vx - vy
  }

  /** The value 8xy7 writes to Vx, unmasked: `Vy - Vx` when Vx < Vy, else `0x100 + Vy - Vx`. */
  function SubtractNAsWritten(vx: Byte, vy: Byte): (r: int)
    ensures r % 0x100 == (vy - vx) % 0x100
    ensures 0 < r <= 0x100
  {
    if vx < vy then vy - vx else 0x100 + vy - vx
  }

  /** The written subtraction leaves the byte range exactly when the operands are equal: then
      Vx receives 256 instead of 0. */
  lemma SubtractEscapesByte(vx: Byte, vy: Byte)
    ensures SubtractAsWritten(vx, vy) < 0x100 <==> vx != vy
    ensures SubtractNAsWritten(vx, vy) < 0x100 <==> vx != vy
    ensures SubtractAsWritten(vx, vx) == 0x100 && SubtractNAsWritten(vx, vx) == 0x100
  {
  }

  /** For every pair of registers other than a register subtracted from itself, the corrected
      8xy5 and 8xy7 store what the written code stores, and VF ends as the written code leaves
      it: 1 after the strict branch, unchanged after the other. */
  lemma {:induction false} SubtractCorrectionAgrees(s: State, x: Nibble, y: Nibble)
    requires Valid(s) && x != VF && s.registers[x] != s.registers[y]
    ensures Op8xy5(s, x, y).registers[x] == SubtractAsWritten(s.registers[x], s.registers[y])
    ensures Op8xy7(s, x, y).registers[x] == SubtractNAsWritten(s.registers[x], s.registers[y])
    ensures Op8xy5(s, x, y).registers[VF] == if s.registers[x] > s.registers[y] then 1 else s.registers[VF]
    ensures Op8xy7(s, x, y).registers[VF] == if s.registers[x] < s.registers[y] then 1 else s.registers[VF]
  {
    SubtractEscapesByte(s.registers[x], s.registers[y]);
  }

  /** 8xy5 with Vx = Vy, e.g. V0 = V1 = 7: the written code stores 256 in V0, the corrected
      machine stores 0. */
  lemma {:induction false} SubtractEqualOperands(s: State)
    requires Valid(s) && s.registers[0] == 7 && s.registers[1] == 7
    ensures SubtractAsWritten(s.registers[0], s.registers[1]) == 0x100
    ensures Op8xy5(s, 0, 1).registers[0] == 0
  {
  }

  /** 00EE as written: the stack pointer is decremented and the PC read from the stack, where a
      negative index counts from the end of the stack. Returns the new stack pointer and PC. */
  function ReturnAsWritten(stack: seq<nat>, sp: int): (r: (int, nat))
    requires |stack| == StackSize && -(StackSize as int) < sp <= StackSize
    ensures r.0 == sp - 1
    ensures r.1 == stack[(sp - 1) % StackSize]
  {
    var top := sp - 1;
    (top, if top < 0 then stack[StackSize + top] else stack[top])
  }

  /** A return with an empty stack does not fail as written: the stack pointer becomes -1 and
      the PC is read from the last stack slot, whatever it holds. */
  lemma {:induction false} ReturnUnderflowWraps(s: State)
    requires Valid(s) && s.sp == 0
    ensures ReturnAsWritten(s.stack, s.sp) == (-1, s.stack[StackSize - 1])
    ensures Op00EE(s) == Next(s, Raised(StackUnderflow))
  {
  }

  /** Whenever the stack holds something the corrected 00EE returns exactly as written. */
  lemma {:induction false} ReturnCorrectionAgrees(s: State)
    requires Valid(s) && s.sp > 0
    ensures Op00EE(s) == Ok(s.(sp := ReturnAsWritten(s.stack, s.sp).0, pc := ReturnAsWritten(s.stack, s.sp).1))
  {
    assert (s.sp - 1) % StackSize == s.sp - 1;
  }
}
