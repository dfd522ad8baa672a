/** The CHIP-8 machine as a value: its state, the effect of each instruction on it, and one
    fetch-decode-execute step. The class in module Interpreter updates the same state in place
    and is proved to agree with these functions. */
module Machine {
  import opened Bits
  import opened Decoder
  import opened Sprite

  const RegistersSize: nat := 16
  const MemorySize: nat := 4096
  const StackSize: nat := 16
  const StartAddress: nat := 0x200
  const FontStartAddress: nat := 0x50
  /** Register VF, overwritten as a flag by arithmetic, shift and draw instructions. */
  const VF: Nibble := 0xF

  /** The sixteen hexadecimal digit glyphs, five rows of one byte each. */
  const Font: seq<Byte> := [
    0xF0, 0x90, 0x90, 0x90, 0xF0, // 0
    0x20, 0x60, 0x20, 0x20, 0x70, // 1
    0xF0, 0x10, 0xF0, 0x80, 0xF0, // 2
    0xF0, 0x10, 0xF0, 0x10, 0xF0, // 3
    0x90, 0x90, 0xF0, 0x10, 0x10, // 4
    0xF0, 0x80, 0xF0, 0x10, 0xF0, // 5
    0xF0, 0x80, 0xF0, 0x90, 0xF0, // 6
    0xF0, 0x10, 0x20, 0x40, 0x40, // 7
    0xF0, 0x90, 0xF0, 0x90, 0xF0, // 8
    0xF0, 0x90, 0xF0, 0x10, 0xF0, // 9
    0xF0, 0x90, 0xF0, 0x90, 0x90, // A
    0xE0, 0x90, 0xE0, 0x90, 0xE0, // B
    0xF0, 0x80, 0x80, 0x80, 0xF0, // C
    0xE0, 0x90, 0x90, 0x90, 0xE0, // D
    0xF0, 0x80, 0xF0, 0x80, 0xF0, // E
    0xF0, 0x80, 0xF0, 0x80, 0x80  // F
  ]

  datatype Option<+T> = None | Some(value: T)

  /** Everything an instruction can read or change. `key` is the pressed-key slot that the host
      sets between steps (`None` when no key is down). */
  datatype State = State(
    registers: seq<Byte>,
    memory: seq<Byte>,
    stack: seq<nat>,
    sp: nat,
    index: nat,
    pc: nat,
    delay: Byte,
    sound: Byte,
    display: seq<bool>,
    key: Option<Nibble>)

  /** Why an instruction could not complete: the interpreter would raise at this point. */
  datatype Fault = FetchOutOfRange | StackOverflow | StackUnderflow | MemoryOutOfRange

  datatype Outcome = Executed | Raised(fault: Fault)

  /** The state after an instruction, and whether it completed. On a fault the state holds
      the writes made before the failing access. */
  datatype Next = Next(state: State, outcome: Outcome)

  predicate Valid(s: State)
  {
    && |s.registers| == RegistersSize
    && |s.memory| == MemorySize
    && |s.stack| == StackSize
    && s.sp <= StackSize
    && s.index < 0x10000
    && |s.display| == PixelCount
  }

  function Blank(): (d: seq<bool>)
    ensures |d| == PixelCount && forall p | 0 <= p < PixelCount :: !d[p]
  {
    seq(PixelCount, _ => false)
  }

  /** The memory after the font table has been copied to its base address. */
  function InstallFont(mem: seq<Byte>): (m: seq<Byte>)
    requires |mem| == MemorySize
    ensures |m| == MemorySize
    ensures forall i | 0 <= i < |Font| :: m[FontStartAddress + i] == Font[i]
    ensures forall a | 0 <= a < MemorySize && !(FontStartAddress <= a < FontStartAddress + |Font|) :: m[a] == mem[a]
  {
    mem[..FontStartAddress] + Font + mem[FontStartAddress + |Font|..]
  }

  /** The state of a freshly constructed machine: everything zero, the font installed,
      the PC at the program start and the key slot holding key 0. */
  function Init(): (s: State)
    ensures Valid(s)
    ensures s.pc == StartAddress && s.sp == 0 && s.key == Some(0)
    ensures s.index == 0 && s.delay == 0 && s.sound == 0
    ensures s.memory[FontStartAddress..FontStartAddress + |Font|] == Font
    ensures forall a | 0 <= a < MemorySize && !(FontStartAddress <= a < FontStartAddress + |Font|) :: s.memory[a] == 0
    ensures forall i | 0 <= i < StackSize :: s.stack[i] == 0
    ensures forall i | 0 <= i < RegistersSize :: s.registers[i] == 0
    ensures forall p | 0 <= p < PixelCount :: !s.display[p]
  {
    var s := State(seq(RegistersSize, _ => 0), InstallFont(seq(MemorySize, _ => 0)), seq(StackSize, _ => 0),
                   0, 0, StartAddress, 0, 0, Blank(), Some(0));
    assert s.memory[FontStartAddress..FontStartAddress + |Font|] == Font;
    s
  }

  /** Copies a program image to the program start. An image too long for memory is copied up
      to the last address and then reported (`ok` false), as the interpreter raises there. */
  function LoadRom(s: State, rom: seq<Byte>): (r: (State, bool))
    requires Valid(s)
    ensures Valid(r.0) && r.0 == s.(memory := r.0.memory)
    ensures r.1 <==> StartAddress + |rom| <= MemorySize
    ensures forall i | 0 <= i < |rom| && StartAddress + i < MemorySize :: r.0.memory[StartAddress + i] == rom[i]
    ensures forall a | 0 <= a < MemorySize && !(StartAddress <= a < StartAddress + |rom|) :: r.0.memory[a] == s.memory[a]
  {
    var k := if StartAddress + |rom| <= MemorySize then |rom| else MemorySize - StartAddress;
    (s.(memory := s.memory[..StartAddress] + rom[..k] + s.memory[StartAddress + k..]), k == |rom|)
  }

  /** The instruction word at the PC: `memory[pc] << 8 | memory[pc + 1]`. */
  function Opcode(s: State): (op: Word)
    requires Valid(s) && s.pc + 1 < MemorySize
    ensures op / 0x100 == s.memory[s.pc] && op % 0x100 == s.memory[s.pc + 1]
  {
    (s.memory[s.pc] as int) * 0x100 + s.memory[s.pc + 1]
  }

  function Ok(s: State): Next { Next(s, Executed) }

  function Skip(s: State, cond: bool): State
  {
    if cond then s.(pc := s.pc + 2) else s
  }

  function SetRegister(s: State, x: Nibble, v: Byte): State
    requires Valid(s)
  {
    s.(registers := s.registers[x := v])
  }

  // ---------------------------------------------------------------------------------------
  // One function per instruction. `s` is the state after the fetch has advanced the PC.

  /** 00E0: clear the display. */
  function Op00E0(s: State): (t: State)
    ensures t == s.(display := t.display)
    ensures |t.display| == PixelCount && forall p | 0 <= p < PixelCount :: !t.display[p]
  {
    s.(display := Blank())
  }

  /** 00EE: return from a subroutine. An empty stack is reported as an underflow. */
  function Op00EE(s: State): (r: Next)
    requires Valid(s)
    ensures Valid(r.state)
    ensures r.outcome.Raised? <==> s.sp == 0
    ensures r.outcome.Raised? ==> r.state == s && r.outcome.fault == StackUnderflow
  {
    if s.sp == 0 then Next(s, Raised(StackUnderflow))
    else Ok(s.(sp := s.sp - 1, pc := s.stack[s.sp - 1]))
  }

  /** 0nnn: call of a native routine, ignored. */
  function Op0nnn(s: State, nnn: nat): (t: State)
    ensures t == s
  {
    s
  }

  /** 1nnn: jump. */
  function Op1nnn(s: State, nnn: nat): (t: State)
    ensures t == s.(pc := t.pc) && t.pc == nnn
  {
    s.(pc := nnn)
  }

  /** 2nnn: call. A full stack is reported as an overflow before anything is written. */
  function Op2nnn(s: State, nnn: nat): (r: Next)
    requires Valid(s)
    ensures Valid(r.state)
    ensures r.outcome.Raised? <==> s.sp == StackSize
    ensures r.outcome.Raised? ==> r.state == s && r.outcome.fault == StackOverflow
  {
    if s.sp == StackSize then Next(s, Raised(StackOverflow))
    else Ok(s.(stack := s.stack[s.sp := s.pc], sp := s.sp + 1, pc := nnn))
  }

  /** 3xkk: skip if Vx == kk. */
  function Op3xkk(s: State, x: Nibble, kk: Byte): (t: State)
    requires Valid(s)
    ensures t == s.(pc := t.pc) && (t.pc == s.pc || t.pc == s.pc + 2)
    ensures t.pc == s.pc + 2 <==> s.registers[x] == kk
  {
    Skip(s, s.registers[x] == kk)
  }

  /** 4xkk: skip if Vx != kk. */
  function Op4xkk(s: State, x: Nibble, kk: Byte): (t: State)
    requires Valid(s)
    ensures t == s.(pc := t.pc) && (t.pc == s.pc || t.pc == s.pc + 2)
    ensures t.pc == s.pc + 2 <==> s.registers[x] != kk
  {
    Skip(s, s.registers[x] != kk)
  }

  /** 5xy0: skip if Vx == Vy. */
  function Op5xy0(s: State, x: Nibble, y: Nibble): (t: State)
    requires Valid(s)
    ensures t == s.(pc := t.pc) && (t.pc == s.pc || t.pc == s.pc + 2)
    ensures t.pc == s.pc + 2 <==> s.registers[x] == s.registers[y]
  {
    Skip(s, s.registers[x] == s.registers[y])
  }

  /** 6xkk: Vx := kk. */
  function Op6xkk(s: State, x: Nibble, kk: Byte): (t: State)
    requires Valid(s)
    ensures Valid(t) && t == s.(registers := t.registers)
    ensures t.registers[x] == kk && forall i | 0 <= i < RegistersSize && i != x :: t.registers[i] == s.registers[i]
  {
    SetRegister(s, x, kk)
  }

  /** 7xkk: Vx := Vx + kk, masked to a byte (`& 0xFF`); VF is not touched. */
  function Op7xkk(s: State, x: Nibble, kk: Byte): (t: State)
    requires Valid(s)
    ensures Valid(t) && t == s.(registers := t.registers)
    ensures t.registers[x] as int == s.registers[x] + kk || t.registers[x] as int == s.registers[x] + kk - 0x100
    ensures forall i | 0 <= i < RegistersSize && i != x :: t.registers[i] == s.registers[i]
  {
    SetRegister(s, x, (s.registers[x] as int + kk) % 0x100)
  }

  /** 8xy0: Vx := Vy. */
  function Op8xy0(s: State, x: Nibble, y: Nibble): (t: State)
    requires Valid(s)
    ensures Valid(t) && t == s.(registers := t.registers)
    ensures t.registers[x] == s.registers[y] && forall i | 0 <= i < RegistersSize && i != x :: t.registers[i] == s.registers[i]
  {
    SetRegister(s, x, s.registers[y])
  }

  /** 8xy1: Vx := Vx OR Vy. */
  function Op8xy1(s: State, x: Nibble, y: Nibble): (t: State)
    requires Valid(s)
    ensures Valid(t) && t == s.(registers := t.registers)
    ensures forall c | 0 <= c < 8 :: BitAt(t.registers[x], c) <==> BitAt(s.registers[x], c) || BitAt(s.registers[y], c)
    ensures forall i | 0 <= i < RegistersSize && i != x :: t.registers[i] == s.registers[i]
  {
    SetRegister(s, x, Or(s.registers[x], s.registers[y]))
  }

  /** 8xy2: Vx := Vx AND Vy. */
  function Op8xy2(s: State, x: Nibble, y: Nibble): (t: State)
    requires Valid(s)
    ensures Valid(t) && t == s.(registers := t.registers)
    ensures forall c | 0 <= c < 8 :: BitAt(t.registers[x], c) <==> BitAt(s.registers[x], c) && BitAt(s.registers[y], c)
    ensures forall i | 0 <= i < RegistersSize && i != x :: t.registers[i] == s.registers[i]
  {
    SetRegister(s, x, And(s.registers[x], s.registers[y]))
  }

  /** 8xy3: Vx := Vx XOR Vy. */
  function Op8xy3(s: State, x: Nibble, y: Nibble): (t: State)
    requires Valid(s)
    ensures Valid(t) && t == s.(registers := t.registers)
    ensures forall c | 0 <= c < 8 :: BitAt(t.registers[x], c) <==> BitAt(s.registers[x], c) != BitAt(s.registers[y], c)
    ensures forall i | 0 <= i < RegistersSize && i != x :: t.registers[i] == s.registers[i]
  {
    SetRegister(s, x, Xor(s.registers[x], s.registers[y]))
  }

  /** 8xy4: Vx := Vx + Vy masked to a byte, then VF := bit 8 of the sum (`(sum & 0x100) >> 8`).
      VF is written last, so it holds the carry even when x is F. */
  function Op8xy4(s: State, x: Nibble, y: Nibble): (t: State)
    requires Valid(s)
    ensures Valid(t) && t == s.(registers := t.registers)
    ensures t.registers[VF] == if s.registers[x] as int + s.registers[y] >= 0x100 then 1 else 0
    ensures x != VF ==> t.registers[x] == (s.registers[x] as int + s.registers[y]) % 0x100
    ensures forall i | 0 <= i < VF && i != x :: t.registers[i] == s.registers[i]
  {
    var sum := s.registers[x] as int + s.registers[y];
    s.(registers := s.registers[x := sum % 0x100][VF := (sum / 0x100) % 2])
  }

  /** 8xy5: if Vx > Vy then Vx := Vx - Vy and VF := 1, else Vx := 0x100 + Vx - Vy masked to a
      byte and VF is left as it was. */
  function Op8xy5(s: State, x: Nibble, y: Nibble): (t: State)
    requires Valid(s)
    ensures Valid(t) && t == s.(registers := t.registers)
    ensures x != VF || s.registers[x] <= s.registers[y] ==> t.registers[x] == (s.registers[x] as int - s.registers[y]) % 0x100
    ensures s.registers[x] > s.registers[y] ==> t.registers[VF] == 1
    ensures s.registers[x] <= s.registers[y] && x != VF ==> t.registers[VF] == s.registers[VF]
    ensures forall i | 0 <= i < VF && i != x :: t.registers[i] == s.registers[i]
  {
    var vx, vy := s.registers[x], s.registers[y];
    if vx > vy then s.(registers := s.registers[x := vx - vy][VF := 1])
    else SetRegister(s, x, (0x100 + vx as int - vy) % 0x100)
  }

  /** 8xy6: VF := low bit of Vx, then Vx := Vx >> 1 (Vy is ignored). The second write reads
      the register after the first, so with x = F the flag is shifted out again. */
  function Op8xy6(s: State, x: Nibble, y: Nibble): (t: State)
    requires Valid(s)
    ensures Valid(t) && t == s.(registers := t.registers)
    ensures x != VF ==> t.registers[VF] < 2 && 2 * (t.registers[x] as int) + t.registers[VF] == s.registers[x]
    ensures x == VF ==> t.registers[VF] == 0
    ensures forall i | 0 <= i < VF && i != x :: t.registers[i] == s.registers[i]
  {
    var flagged := s.registers[VF := s.registers[x] % 2];
    s.(registers := flagged[x := flagged[x] / 2])
  }

  /** 8xy7: if Vx < Vy then Vx := Vy - Vx and VF := 1, else Vx := 0x100 + Vy - Vx masked to a
      byte and VF is left as it was. */
  function Op8xy7(s: State, x: Nibble, y: Nibble): (t: State)
    requires Valid(s)
    ensures Valid(t) && t == s.(registers := t.registers)
    ensures x != VF || s.registers[x] >= s.registers[y] ==> t.registers[x] == (s.registers[y] as int - s.registers[x]) % 0x100
    ensures s.registers[x] < s.registers[y] ==> t.registers[VF] == 1
    ensures s.registers[x] >= s.registers[y] && x != VF ==> t.registers[VF] == s.registers[VF]
    ensures forall i | 0 <= i < VF && i != x :: t.registers[i] == s.registers[i]
  {
    var vx, vy := s.registers[x], s.registers[y];
    if vx < vy then s.(registers := s.registers[x := vy - vx][VF := 1])
    else SetRegister(s, x, (0x100 + vy as int - vx) % 0x100)
  }

  /** 8xyE: VF := high bit of Vx (`(Vx & 0x80) >> 7`), then Vx := (Vx << 1) % 0x100 (Vy is
      ignored). With x = F the second write doubles the flag, leaving 2 or 0. */
  function Op8xyE(s: State, x: Nibble, y: Nibble): (t: State)
    requires Valid(s)
    ensures Valid(t) && t == s.(registers := t.registers)
    ensures x != VF ==> t.registers[VF] < 2 && t.registers[x] as int + 0x100 * (t.registers[VF] as int) == 2 * (s.registers[x] as int)
    ensures x == VF ==> t.registers[VF] == if s.registers[VF] >= 0x80 then 2 else 0
    ensures forall i | 0 <= i < VF && i != x :: t.registers[i] == s.registers[i]
  {
    var flagged := s.registers[VF := s.registers[x] / 0x80];
    s.(registers := flagged[x := (flagged[x] as int * 2) % 0x100])
  }

  /** 9xy0: meant to skip if Vx != Vy, but the comparison reads Vx on both sides, so it never skips. */
  function Op9xy0(s: State, x: Nibble, y: Nibble): (t: State)
    requires Valid(s)
    ensures t == s
  {
    Skip(s, s.registers[x] != s.registers[x])
  }

  /** Annn: I := nnn. */
  function OpAnnn(s: State, nnn: nat): (t: State)
    ensures t == s.(index := t.index) && t.index == nnn
  {
    s.(index := nnn)
  }

  /** Bnnn: PC := V0 + nnn, not masked. */
  function OpBnnn(s: State, nnn: nat): (t: State)
    requires Valid(s)
    ensures t == s.(pc := t.pc) && t.pc == s.registers[0] + nnn
    ensures nnn < 0x1000 ==> t.pc < 0x1000 + 0x100
  {
    s.(pc := s.registers[0] + nnn)
  }

  /** Cxkk: Vx := rnd AND kk, where `rnd` is the random byte drawn for this instruction. */
  function OpCxkk(s: State, x: Nibble, kk: Byte, rnd: Byte): (t: State)
    requires Valid(s)
    ensures Valid(t) && t == s.(registers := t.registers)
    ensures forall c | 0 <= c < 8 :: BitAt(t.registers[x], c) <==> BitAt(rnd, c) && BitAt(kk, c)
    ensures forall i | 0 <= i < RegistersSize && i != x :: t.registers[i] == s.registers[i]
  {
    SetRegister(s, x, And(rnd, kk))
  }

  /** How many of the `n` sprite rows at `index` can be read before the end of memory. */
  function SpriteRows(index: nat, n: nat): (rows: nat)
    ensures rows <= n
    ensures rows == n <==> index + n <= MemorySize || n == 0
  {
    if index + n <= MemorySize then n else if index < MemorySize then MemorySize - index else 0
  }

  /** Dxyn: draw the `n`-row sprite at memory[I..] with its corner at (Vx mod 64, Vy mod 32),
      XOR-ing each set bit into the display with wrap-around at both edges; VF := 1 if a set
      bit met a lit pixel, else 0. Rows past the end of memory are not drawn and are reported. */
  function OpDxyn(s: State, x: Nibble, y: Nibble, n: Nibble): (r: Next)
    requires Valid(s)
    ensures Valid(r.state) && r.state == s.(registers := r.state.registers, display := r.state.display)
    ensures r.outcome.Raised? <==> n > 0 && s.index + n > MemorySize
    ensures r.outcome.Raised? ==> r.outcome.fault == MemoryOutOfRange
    ensures r.state.registers == s.registers[VF := r.state.registers[VF]] && r.state.registers[VF] < 2
  {
    var xPos, yPos := s.registers[x] % Width, s.registers[y] % Height;
    var rows := SpriteRows(s.index, n);
    var collided := CollisionBefore(s.memory, s.index, s.display, xPos, yPos, rows, 0);
    var t := s.(registers := s.registers[VF := if collided then 1 else 0],
                display := Flipped(s.memory, s.index, s.display, xPos, yPos, rows));
    Next(t, if rows < n then Raised(MemoryOutOfRange) else Executed)
  }

  /** Ex9E: skip if the pressed key equals Vx (no key pressed never equals). */
  function OpEx9E(s: State, x: Nibble): (t: State)
    requires Valid(s)
    ensures t == s.(pc := t.pc) && (t.pc == s.pc || t.pc == s.pc + 2)
    ensures t.pc == s.pc + 2 <==> s.key == Some(s.registers[x])
  {
    Skip(s, s.key == Some(s.registers[x]))
  }

  /** ExA1: skip if the pressed key differs from Vx (no key pressed always differs). */
  function OpExA1(s: State, x: Nibble): (t: State)
    requires Valid(s)
    ensures t == s.(pc := t.pc) && (t.pc == s.pc || t.pc == s.pc + 2)
    ensures t.pc == s.pc + 2 <==> s.key != Some(s.registers[x])
  {
    Skip(s, s.key != Some(s.registers[x]))
  }

  /** Fx07: Vx := delay timer. */
  function OpFx07(s: State, x: Nibble): (t: State)
    requires Valid(s)
    ensures Valid(t) && t == s.(registers := t.registers)
    ensures t.registers[x] == s.delay && forall i | 0 <= i < RegistersSize && i != x :: t.registers[i] == s.registers[i]
  {
    SetRegister(s, x, s.delay)
  }

  /** Fx0A: wait for a key. With no key pressed the PC is moved back onto this instruction,
      so the next step fetches it again; otherwise Vx := key. */
  function OpFx0A(s: State, x: Nibble): (t: State)
    requires Valid(s) && s.pc >= 2
    ensures Valid(t)
    ensures s.key == None ==> t == s.(pc := s.pc - 2)
    ensures s.key.Some? ==>
      && t == s.(registers := t.registers) && t.registers[x] == s.key.value
      && forall i | 0 <= i < RegistersSize && i != x :: t.registers[i] == s.registers[i]
  {
    match s.key
    case None => s.(pc := s.pc - 2)
    case Some(k) => SetRegister(s, x, k)
  }

  /** Fx15: delay timer := Vx. */
  function OpFx15(s: State, x: Nibble): (t: State)
    requires Valid(s)
    ensures t == s.(delay := t.delay) && t.delay == s.registers[x]
  {
    s.(delay := s.registers[x])
  }

  /** Fx18: sound timer := Vx. */
  function OpFx18(s: State, x: Nibble): (t: State)
    requires Valid(s)
    ensures t == s.(sound := t.sound) && t.sound == s.registers[x]
  {
    s.(sound := s.registers[x])
  }

  /** Fx1E: I := (I + Vx) & 0xFFFF. */
  function OpFx1E(s: State, x: Nibble): (t: State)
    requires Valid(s)
    ensures Valid(t) && t == s.(index := t.index)
    ensures t.index as int == s.index + s.registers[x] || t.index as int == s.index + s.registers[x] - 0x10000
  {
    s.(index := (s.index + s.registers[x]) % 0x10000)
  }

  /** Fx29: I := address of the glyph for digit Vx, five bytes per glyph; Vx is not masked. */
  function OpFx29(s: State, x: Nibble): (t: State)
    requires Valid(s)
    ensures t == s.(index := t.index) && t.index == FontStartAddress + 5 * (s.registers[x] as int)
    ensures s.registers[x] < 16 ==> FontStartAddress <= t.index && t.index + 5 <= FontStartAddress + |Font|
  {
    s.(index := FontStartAddress + 5 * (s.registers[x] as int))
  }

  /** Fx33: store the decimal digits of Vx at I (hundreds), I+1 (tens) and I+2 (ones). The
      ones digit is written first, so an I+2 past the end of memory faults before any write. */
  function OpFx33(s: State, x: Nibble): (r: Next)
    requires Valid(s)
    ensures Valid(r.state) && r.state == s.(memory := r.state.memory)
    ensures r.outcome.Raised? <==> s.index + 2 >= MemorySize
    ensures r.outcome.Raised? ==> r.state == s && r.outcome.fault == MemoryOutOfRange
    ensures r.outcome == Executed ==>
      var m, i := r.state.memory, s.index;
      && m[i] < 10 && m[i + 1] < 10 && m[i + 2] < 10
      && 100 * (m[i] as int) + 10 * (m[i + 1] as int) + m[i + 2] == s.registers[x]
      && forall a | 0 <= a < MemorySize && !(i <= a < i + 3) :: m[a] == s.memory[a]
  {
    if s.index + 2 >= MemorySize then Next(s, Raised(MemoryOutOfRange))
    else
      var value := s.registers[x];
      var ones := s.memory[s.index + 2 := value % 10];
      var tens := ones[s.index + 1 := (value / 10) % 10];
      var hundreds := tens[s.index := value / 10 / 10];
      assert 100 * (value / 10 / 10) + 10 * ((value / 10) % 10) + value % 10 == value;
      Ok(s.(memory := hundreds))
  }

  /** How many of the registers V0..Vx a block copy at `index` moves before it runs off memory. */
  function BlockCount(index: nat, x: Nibble): (k: nat)
    ensures k <= x + 1
    ensures k == x + 1 <==> index + x < MemorySize
  {
    if index + x < MemorySize then x + 1 else if index < MemorySize then MemorySize - index else 0
  }

  /** Fx55: memory[I + i] := Vi for i = 0..x. Cells copied before the end of memory is reached stay written. */
  function OpFx55(s: State, x: Nibble): (r: Next)
    requires Valid(s)
    ensures Valid(r.state) && r.state == s.(memory := r.state.memory)
    ensures r.outcome.Raised? <==> s.index + x >= MemorySize
    ensures r.outcome.Raised? ==> r.outcome.fault == MemoryOutOfRange
    ensures r.outcome == Executed ==> forall i | 0 <= i <= x :: r.state.memory[s.index + i] == s.registers[i]
    ensures forall a | 0 <= a < MemorySize && !(s.index <= a <= s.index + x) :: r.state.memory[a] == s.memory[a]
  {
    var k := BlockCount(s.index, x);
    var mem := seq(MemorySize, a requires 0 <= a < MemorySize =>
      if s.index <= a < s.index + k then s.registers[a - s.index] else s.memory[a]);
    Next(s.(memory := mem), if k <= x then Raised(MemoryOutOfRange) else Executed)
  }

  /** Fx65: Vi := memory[I + i] for i = 0..x. Registers loaded before the end of memory is reached stay loaded. */
  function OpFx65(s: State, x: Nibble): (r: Next)
    requires Valid(s)
    ensures Valid(r.state) && r.state == s.(registers := r.state.registers)
    ensures r.outcome.Raised? <==> s.index + x >= MemorySize
    ensures r.outcome.Raised? ==> r.outcome.fault == MemoryOutOfRange
    ensures r.outcome == Executed ==> forall i | 0 <= i <= x :: r.state.registers[i] == s.memory[s.index + i]
    ensures forall i | x < i < RegistersSize :: r.state.registers[i] == s.registers[i]
  {
    var k := BlockCount(s.index, x);
    var regs := seq(RegistersSize, i requires 0 <= i < RegistersSize =>
      if i < k then s.memory[s.index + i] else s.registers[i]);
    Next(s.(registers := regs), if k <= x then Raised(MemoryOutOfRange) else Executed)
  }

  // ---------------------------------------------------------------------------------------
  // Dispatch and the step.

  /** Runs the instruction with nibbles `n`, trying the patterns in order; a word that matches
      none of them changes nothing. */
  function Execute(s: State, n: Nibbles, rnd: Byte): (r: Next)
    requires Valid(s) && s.pc >= 2
    ensures Valid(r.state)
  {
    match n
    case Nibbles(0x0, 0x0, 0xE, 0x0) => Ok(Op00E0(s))
    case Nibbles(0x0, 0x0, 0xE, 0xE) => Op00EE(s)
    case Nibbles(0x0, _, _, _) => Ok(Op0nnn(s, GetNnn(n)))
    case Nibbles(0x1, _, _, _) => Ok(Op1nnn(s, GetNnn(n)))
    case Nibbles(0x2, _, _, _) => Op2nnn(s, GetNnn(n))
    case Nibbles(0x3, x, _, _) => Ok(Op3xkk(s, x, GetKk(n)))
    case Nibbles(0x4, x, _, _) => Ok(Op4xkk(s, x, GetKk(n)))
    case Nibbles(0x5, x, y, 0x0) => Ok(Op5xy0(s, x, y))
    case Nibbles(0x6, x, _, _) => Ok(Op6xkk(s, x, GetKk(n)))
    case Nibbles(0x7, x, _, _) => Ok(Op7xkk(s, x, GetKk(n)))
    case Nibbles(0x8, x, y, 0x0) => Ok(Op8xy0(s, x, y))
    case Nibbles(0x8, x, y, 0x1) => Ok(Op8xy1(s, x, y))
    case Nibbles(0x8, x, y, 0x2) => Ok(Op8xy2(s, x, y))
    case Nibbles(0x8, x, y, 0x3) => Ok(Op8xy3(s, x, y))
    case Nibbles(0x8, x, y, 0x4) => Ok(Op8xy4(s, x, y))
    case Nibbles(0x8, x, y, 0x5) => Ok(Op8xy5(s, x, y))
    case Nibbles(0x8, x, y, 0x6) => Ok(Op8xy6(s, x, y))
    case Nibbles(0x8, x, y, 0x7) => Ok(Op8xy7(s, x, y))
    case Nibbles(0x8, x, y, 0xE) => Ok(Op8xyE(s, x, y))
    case Nibbles(0x9, x, y, 0x0) => Ok(Op9xy0(s, x, y))
    case Nibbles(0xA, _, _, _) => Ok(OpAnnn(s, GetNnn(n)))
    case Nibbles(0xB, _, _, _) => Ok(OpBnnn(s, GetNnn(n)))
    case Nibbles(0xC, x, _, _) => Ok(OpCxkk(s, x, GetKk(n), rnd))
    case Nibbles(0xD, x, y, m) => OpDxyn(s, x, y, m)
    case Nibbles(0xE, x, 0x9, 0xE) => Ok(OpEx9E(s, x))
    case Nibbles(0xE, x, 0xA, 0x1) => Ok(OpExA1(s, x))
    case Nibbles(0xF, x, 0x0, 0x7) => Ok(OpFx07(s, x))
    case Nibbles(0xF, x, 0x0, 0xA) => Ok(OpFx0A(s, x))
    case Nibbles(0xF, x, 0x1, 0x5) => Ok(OpFx15(s, x))
    case Nibbles(0xF, x, 0x1, 0x8) => Ok(OpFx18(s, x))
    case Nibbles(0xF, x, 0x1, 0xE) => Ok(OpFx1E(s, x))
    case Nibbles(0xF, x, 0x2, 0x9) => Ok(OpFx29(s, x))
    case Nibbles(0xF, x, 0x3, 0x3) => OpFx33(s, x)
    case Nibbles(0xF, x, 0x5, 0x5) => OpFx55(s, x)
    case Nibbles(0xF, x, 0x6, 0x5) => OpFx65(s, x)
    case _ => Ok(s)
  }

  /** The state after the fetch: PC moved past the instruction word, then the delay timer
      decremented if it is positive. */
  function Fetched(s: State): (t: State)
    requires Valid(s)
    ensures Valid(t) && t == s.(pc := s.pc + 2, delay := t.delay)
    ensures t.delay == if s.delay > 0 then s.delay - 1 else 0
  {
    var advanced := s.(pc := s.pc + 2);
    if advanced.delay > 0 then advanced.(delay := advanced.delay - 1) else advanced
  }

  /** One instruction: fetch the big-endian word at the PC (faulting, with nothing changed, when
      it runs past memory), advance the PC and tick the delay timer, then execute the word. */
  function Step(s: State, rnd: Byte): (r: Next)
    requires Valid(s)
    ensures Valid(r.state)
    ensures r.outcome == Raised(FetchOutOfRange) <==> s.pc + 1 >= MemorySize
    ensures s.pc + 1 >= MemorySize ==> r.state == s
  {
    if s.pc + 1 >= MemorySize then Next(s, Raised(FetchOutOfRange))
    else Execute(Fetched(s), GetBytes(Opcode(s)), rnd)
  }
}
