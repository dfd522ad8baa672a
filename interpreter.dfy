/** The interpreter object: the machine state held in mutable fields and arrays, updated in
    place one instruction at a time. Every method is proved to leave the state that the
    corresponding function of module Machine computes from the state before the call. */
module Interpreter {
  import opened Bits
  import opened Decoder
  import opened Sprite
  import Machine

  class Chip8 {
    const registers: array<Byte>
    const memory: array<Byte>
    const stack: array<nat>
    var display: array<bool>
    var index: nat
    var pc: nat
    var sp: nat
    var delay: Byte
    var sound: Byte
    /** The pressed-key slot, written by the host between steps. */
    var key: Machine.Option<Nibble>

    ghost predicate Valid()
      reads this
    {
      && registers.Length == Machine.RegistersSize
      && memory.Length == Machine.MemorySize
      && stack.Length == Machine.StackSize
      && display.Length == PixelCount
      && sp <= Machine.StackSize
      && index < 0x10000
      && registers != memory
    }

    /** The machine state these fields hold. */
    ghost function Abs(): (s: Machine.State)
      reads this, registers, memory, stack, display
      requires Valid()
      ensures Machine.Valid(s)
    {
      Machine.State(registers[..], memory[..], stack[..], sp, index, pc, delay, sound, display[..], key)
    }

    /** A fresh machine: zeroed registers, memory, stack and display, the font installed,
        the PC at the program start and key 0 in the key slot. */
    constructor ()
      ensures Valid() && Abs() == Machine.Init()
      ensures fresh(registers) && fresh(memory) && fresh(stack) && fresh(display)
    {
      registers := new Byte[Machine.RegistersSize](_ => 0);
      memory := new Byte[Machine.MemorySize](_ => 0);
      stack := new nat[Machine.StackSize](_ => 0);
      display := new bool[PixelCount](_ => false);
      index := 0;
      pc := Machine.StartAddress;
      sp := 0;
      delay := 0;
      sound := 0;
      key := Machine.Some(0);
      new;
      InitFont();
      assert memory[..] == Machine.InstallFont(seq(Machine.MemorySize, _ => 0));
      assert display[..] == Machine.Blank();
    }

    /** Copies the font table to its base address, one byte at a time. */
    method InitFont()
      requires Valid()
      modifies memory
      ensures memory[..] == Machine.InstallFont(old(memory[..]))
    {
      var i := 0;
      while i < |Machine.Font|
        invariant 0 <= i <= |Machine.Font|
        invariant forall a | 0 <= a < Machine.MemorySize ::
          memory[a] == if Machine.FontStartAddress <= a < Machine.FontStartAddress + i
                       then Machine.Font[a - Machine.FontStartAddress] else old(memory[a])
      {
        memory[Machine.FontStartAddress + i] := Machine.Font[i];
        i := i + 1;
      }
      assert memory[..] == Machine.InstallFont(old(memory[..]));
    }

    /** Copies a program image to the program start, stopping (and answering false) at the end of memory. */
    method LoadRom(rom: seq<Byte>) returns (ok: bool)
      requires Valid()
      modifies memory
      ensures Valid() && (Abs(), ok) == Machine.LoadRom(old(Abs()), rom)
    {
      var i := 0;
      while i < |rom|
        invariant 0 <= i <= |rom| && Machine.StartAddress + i <= Machine.MemorySize
        invariant forall a | 0 <= a < Machine.MemorySize ::
          memory[a] == if Machine.StartAddress <= a < Machine.StartAddress + i
                       then rom[a - Machine.StartAddress] else old(memory[a])
      {
        if Machine.StartAddress + i >= Machine.MemorySize {
          ok := false;
          assert memory[..] == Machine.LoadRom(old(Abs()), rom).0.memory;
          return;
        }
        memory[Machine.StartAddress + i] := rom[i];
        i := i + 1;
      }
      ok := true;
      assert memory[..] == Machine.LoadRom(old(Abs()), rom).0.memory;
    }

    /** Reads the big-endian word at the PC and moves the PC past it. */
    method GetOpcode() returns (opcode: Word)
      requires Valid() && pc + 1 < Machine.MemorySize
      modifies this`pc
      ensures Valid() && pc == old(pc) + 2
      ensures opcode == Machine.Opcode(old(Abs()))
    {
      opcode := memory[pc] as int * 0x100 + memory[pc + 1];
      pc := pc + 2;
    }

    /** Executes one instruction; `rnd` is the random byte an instruction Cxkk would draw. */
    method Exec(rnd: Byte) returns (outcome: Machine.Outcome)
      requires Valid()
      modifies this, registers, memory, stack, display
      ensures Valid()
      ensures Machine.Next(Abs(), outcome) == Machine.Step(old(Abs()), rnd)
    {
      if pc + 1 >= Machine.MemorySize {
        return Machine.Raised(Machine.FetchOutOfRange);
      }
      var opcode := GetOpcode();
      var bytes := GetBytes(opcode);
      if delay > 0 {
        delay := delay - 1;
      }
      assert Abs() == Machine.Fetched(old(Abs()));
      outcome := Dispatch(bytes, rnd);
    }

    /** The pattern match of one step: the first pattern that fits the nibbles picks the instruction. */
    method Dispatch(n: Nibbles, rnd: Byte) returns (outcome: Machine.Outcome)
      requires Valid() && pc >= 2
      modifies this, registers, memory, stack, display
      ensures Valid()
      ensures Machine.Next(Abs(), outcome) == Machine.Execute(old(Abs()), n, rnd)
    {
      outcome := Machine.Executed;
      match n
      case Nibbles(0x0, 0x0, 0xE, 0x0) => Op00E0();
      case Nibbles(0x0, 0x0, 0xE, 0xE) => outcome := Op00EE();
      case Nibbles(0x0, _, _, _) => Op0nnn(GetNnn(n));
      case Nibbles(0x1, _, _, _) => Op1nnn(GetNnn(n));
      case Nibbles(0x2, _, _, _) => outcome := Op2nnn(GetNnn(n));
      case Nibbles(0x3, x, _, _) => Op3xkk(x, GetKk(n));
      case Nibbles(0x4, x, _, _) => Op4xkk(x, GetKk(n));
      case Nibbles(0x5, x, y, 0x0) => Op5xy0(x, y);
      case Nibbles(0x6, x, _, _) => Op6xkk(x, GetKk(n));
      case Nibbles(0x7, x, _, _) => Op7xkk(x, GetKk(n));
      case Nibbles(0x8, x, y, 0x0) => Op8xy0(x, y);
      case Nibbles(0x8, x, y, 0x1) => Op8xy1(x, y);
      case Nibbles(0x8, x, y, 0x2) => Op8xy2(x, y);
      case Nibbles(0x8, x, y, 0x3) => Op8xy3(x, y);
      case Nibbles(0x8, x, y, 0x4) => Op8xy4(x, y);
      case Nibbles(0x8, x, y, 0x5) => Op8xy5(x, y);
      case Nibbles(0x8, x, y, 0x6) => Op8xy6(x, y);
      case Nibbles(0x8, x, y, 0x7) => Op8xy7(x, y);
      case Nibbles(0x8, x, y, 0xE) => Op8xyE(x, y);
      case Nibbles(0x9, x, y, 0x0) => Op9xy0(x, y);
      case Nibbles(0xA, _, _, _) => OpAnnn(GetNnn(n));
      case Nibbles(0xB, _, _, _) => OpBnnn(GetNnn(n));
      case Nibbles(0xC, x, _, _) => OpCxkk(x, GetKk(n), rnd);
      case Nibbles(0xD, x, y, m) => outcome := OpDxyn(x, y, m);
      case Nibbles(0xE, x, 0x9, 0xE) => OpEx9E(x);
      case Nibbles(0xE, x, 0xA, 0x1) => OpExA1(x);
      case Nibbles(0xF, x, 0x0, 0x7) => OpFx07(x);
      case Nibbles(0xF, x, 0x0, 0xA) => OpFx0A(x);
      case Nibbles(0xF, x, 0x1, 0x5) => OpFx15(x);
      case Nibbles(0xF, x, 0x1, 0x8) => OpFx18(x);
      case Nibbles(0xF, x, 0x1, 0xE) => OpFx1E(x);
      case Nibbles(0xF, x, 0x2, 0x9) => OpFx29(x);
      case Nibbles(0xF, x, 0x3, 0x3) => outcome := OpFx33(x);
      case Nibbles(0xF, x, 0x5, 0x5) => outcome := OpFx55(x);
      case Nibbles(0xF, x, 0x6, 0x5) => outcome := OpFx65(x);
      case _ =>
    }

    method Op0nnn(nnn: nat)
      requires Valid()
      ensures Abs() == Machine.Op0nnn(old(Abs()), nnn)
    {
    }

    method Op00E0()
      requires Valid()
      modifies this`display
      ensures Valid() && fresh(display)
      ensures Abs() == Machine.Op00E0(old(Abs()))
    {
      display := new bool[PixelCount](_ => false);
      assert display[..] == Machine.Blank();
    }

    method Op00EE() returns (outcome: Machine.Outcome)
      requires Valid()
      modifies this`sp, this`pc
      ensures Valid() && Machine.Next(Abs(), outcome) == Machine.Op00EE(old(Abs()))
    {
      if sp == 0 {
        return Machine.Raised(Machine.StackUnderflow);
      }
      sp := sp - 1;
      pc := stack[sp];
      outcome := Machine.Executed;
    }

    method Op1nnn(nnn: nat)
      requires Valid()
      modifies this`pc
      ensures Valid() && Abs() == Machine.Op1nnn(old(Abs()), nnn)
    {
      pc := nnn;
    }

    method Op2nnn(nnn: nat) returns (outcome: Machine.Outcome)
      requires Valid()
      modifies stack, this`sp, this`pc
      ensures Valid() && Machine.Next(Abs(), outcome) == Machine.Op2nnn(old(Abs()), nnn)
    {
      if sp == Machine.StackSize {
        return Machine.Raised(Machine.StackOverflow);
      }
      stack[sp] := pc;
      sp := sp + 1;
      pc := nnn;
      outcome := Machine.Executed;
    }

    method Op3xkk(x: Nibble, kk: Byte)
      requires Valid()
      modifies this`pc
      ensures Valid() && Abs() == Machine.Op3xkk(old(Abs()), x, kk)
    {
      if registers[x] == kk {
        pc := pc + 2;
      }
    }

    method Op4xkk(x: Nibble, kk: Byte)
      requires Valid()
      modifies this`pc
      ensures Valid() && Abs() == Machine.Op4xkk(old(Abs()), x, kk)
    {
      if registers[x] != kk {
        pc := pc + 2;
      }
    }

    method Op5xy0(x: Nibble, y: Nibble)
      requires Valid()
      modifies this`pc
      ensures Valid() && Abs() == Machine.Op5xy0(old(Abs()), x, y)
    {
      if registers[x] == registers[y] {
        pc := pc + 2;
      }
    }

    method Op6xkk(x: Nibble, kk: Byte)
      requires Valid()
      modifies registers
      ensures Valid() && Abs() == Machine.Op6xkk(old(Abs()), x, kk)
    {
      registers[x] := kk;
    }

    method Op7xkk(x: Nibble, kk: Byte)
      requires Valid()
      modifies registers
      ensures Valid() && Abs() == Machine.Op7xkk(old(Abs()), x, kk)
    {
      registers[x] := (registers[x] as int + kk) % 0x100;
    }

    method Op8xy0(x: Nibble, y: Nibble)
      requires Valid()
      modifies registers
      ensures Valid() && Abs() == Machine.Op8xy0(old(Abs()), x, y)
    {
      registers[x] := registers[y];
    }

    method Op8xy1(x: Nibble, y: Nibble)
      requires Valid()
      modifies registers
      ensures Valid() && Abs() == Machine.Op8xy1(old(Abs()), x, y)
    {
      registers[x] := Or(registers[x], registers[y]);
    }

    method Op8xy2(x: Nibble, y: Nibble)
      requires Valid()
      modifies registers
      ensures Valid() && Abs() == Machine.Op8xy2(old(Abs()), x, y)
    {
      registers[x] := And(registers[x], registers[y]);
    }

    method Op8xy3(x: Nibble, y: Nibble)
      requires Valid()
      modifies registers
      ensures Valid() && Abs() == Machine.Op8xy3(old(Abs()), x, y)
    {
      registers[x] := Xor(registers[x], registers[y]);
    }

    method Op8xy4(x: Nibble, y: Nibble)
      requires Valid()
      modifies registers
      ensures Valid() && Abs() == Machine.Op8xy4(old(Abs()), x, y)
    {
      var sum := registers[x] as int + registers[y];
      registers[x] := sum % 0x100;
      registers[Machine.VF] := (sum / 0x100) % 2;
    }

    method Op8xy5(x: Nibble, y: Nibble)
      requires Valid()
      modifies registers
      ensures Valid() && Abs() == Machine.Op8xy5(old(Abs()), x, y)
    {
      if registers[x] > registers[y] {
        registers[x] := registers[x] - registers[y];
        registers[Machine.VF] := 1;
      } else {
        registers[x] := (0x100 + registers[x] as int - registers[y]) % 0x100;
      }
    }

    method Op8xy6(x: Nibble, y: Nibble)
      requires Valid()
      modifies registers
      ensures Valid() && Abs() == Machine.Op8xy6(old(Abs()), x, y)
    {
      registers[Machine.VF] := registers[x] % 2;
      registers[x] := registers[x] / 2;
    }

    method Op8xy7(x: Nibble, y: Nibble)
      requires Valid()
      modifies registers
      ensures Valid() && Abs() == Machine.Op8xy7(old(Abs()), x, y)
    {
      if registers[x] < registers[y] {
        registers[x] := registers[y] - registers[x];
        registers[Machine.VF] := 1;
      } else {
        registers[x] := (0x100 + registers[y] as int - registers[x]) % 0x100;
      }
    }

    method Op8xyE(x: Nibble, y: Nibble)
      requires Valid()
      modifies registers
      ensures Valid() && Abs() == Machine.Op8xyE(old(Abs()), x, y)
    {
      registers[Machine.VF] := registers[x] / 0x80;
      registers[x] := (registers[x] as int * 2) % 0x100;
    }

    method Op9xy0(x: Nibble, y: Nibble)
      requires Valid()
      modifies this`pc
      ensures Valid() && Abs() == Machine.Op9xy0(old(Abs()), x, y)
    {
      // The comparison reads Vx on both sides, as in the interpreter, so the skip never happens.
      var skip := registers[x] != registers[x];
      pc := pc + if skip then 2 else 0;
    }

    method OpAnnn(nnn: nat)
      requires Valid() && nnn < 0x10000
      modifies this`index
      ensures Valid() && Abs() == Machine.OpAnnn(old(Abs()), nnn)
    {
      index := nnn;
    }

    method OpBnnn(nnn: nat)
      requires Valid()
      modifies this`pc
      ensures Valid() && Abs() == Machine.OpBnnn(old(Abs()), nnn)
    {
      pc := registers[0] + nnn;
    }

    method OpCxkk(x: Nibble, kk: Byte, rnd: Byte)
      requires Valid()
      modifies registers
      ensures Valid() && Abs() == Machine.OpCxkk(old(Abs()), x, kk, rnd)
    {
      registers[x] := And(rnd, kk);
    }

    /** The draw loop: rows of the sprite top to bottom, bits of each row most significant first. */
    method OpDxyn(x: Nibble, y: Nibble, n: Nibble) returns (outcome: Machine.Outcome)
      requires Valid()
      modifies registers, display
      ensures Valid() && Machine.Next(Abs(), outcome) == Machine.OpDxyn(old(Abs()), x, y, n)
    {
      var xPos := registers[x] % Width;
      var yPos := registers[y] % Height;
      ghost var mem := memory[..];
      ghost var before := display[..];
      ghost var rows := Machine.SpriteRows(index, n);
      registers[Machine.VF] := 0;
      var row := 0;
      while row < n
        invariant 0 <= row <= rows
        invariant forall p | 0 <= p < PixelCount ::
          display[p] == (before[p] != DrawnBefore(mem, index, xPos, yPos, row, 0, p))
        invariant registers[..] == old(registers[..])[Machine.VF :=
          if CollisionBefore(mem, index, before, xPos, yPos, row, 0) then 1 else 0]
      {
        if index + row >= Machine.MemorySize {
          outcome := Machine.Raised(Machine.MemoryOutOfRange);
          assert display[..] == Flipped(mem, index, before, xPos, yPos, rows);
          return;
        }
        var spriteByte := memory[index + row];
        var col := 0;
        while col < 8
          invariant 0 <= col <= 8
          invariant forall p | 0 <= p < PixelCount ::
            display[p] == (before[p] != DrawnBefore(mem, index, xPos, yPos, row, col, p))
          invariant registers[..] == old(registers[..])[Machine.VF :=
            if CollisionBefore(mem, index, before, xPos, yPos, row, col) then 1 else 0]
        {
          var p := Target(xPos, yPos, row, col);
          CollisionStep(mem, index, before, xPos, yPos, row, col);
          NotYetDrawn(mem, index, xPos, yPos, row, col);
          forall q | 0 <= q < PixelCount
            ensures DrawnBefore(mem, index, xPos, yPos, row, col + 1, q) <==>
              DrawnBefore(mem, index, xPos, yPos, row, col, q) ||
              (q == p && SpriteBit(mem, index, row, col))
          {
            DrawnStep(mem, index, xPos, yPos, row, col, q);
          }
          if BitAt(spriteByte, col) {
            if display[p] {
              registers[Machine.VF] := 1;
            }
            display[p] := !display[p];
          }
          col := col + 1;
        }
        forall q | 0 <= q < PixelCount
          ensures DrawnBefore(mem, index, xPos, yPos, row, 8, q) <==> DrawnBefore(mem, index, xPos, yPos, row + 1, 0, q)
        {
          RowDone(mem, index, before, xPos, yPos, row, q);
        }
        RowDone(mem, index, before, xPos, yPos, row, 0);
        row := row + 1;
      }
      outcome := Machine.Executed;
      assert display[..] == Flipped(mem, index, before, xPos, yPos, rows);
    }

    method OpEx9E(x: Nibble)
      requires Valid()
      modifies this`pc
      ensures Valid() && Abs() == Machine.OpEx9E(old(Abs()), x)
    {
      if key == Machine.Some(registers[x]) {
        pc := pc + 2;
      }
    }

    method OpExA1(x: Nibble)
      requires Valid()
      modifies this`pc
      ensures Valid() && Abs() == Machine.OpExA1(old(Abs()), x)
    {
      if key != Machine.Some(registers[x]) {
        pc := pc + 2;
      }
    }

    method OpFx07(x: Nibble)
      requires Valid()
      modifies registers
      ensures Valid() && Abs() == Machine.OpFx07(old(Abs()), x)
    {
      registers[x] := delay;
    }

    method OpFx0A(x: Nibble)
      requires Valid() && pc >= 2
      modifies this`pc, registers
      ensures Valid() && Abs() == Machine.OpFx0A(old(Abs()), x)
    {
      match key
      case None => pc := pc - 2;
      case Some(k) => registers[x] := k;
    }

    method OpFx15(x: Nibble)
      requires Valid()
      modifies this`delay
      ensures Valid() && Abs() == Machine.OpFx15(old(Abs()), x)
    {
      delay := registers[x];
    }

    method OpFx18(x: Nibble)
      requires Valid()
      modifies this`sound
      ensures Valid() && Abs() == Machine.OpFx18(old(Abs()), x)
    {
      sound := registers[x];
    }

    method OpFx1E(x: Nibble)
      requires Valid()
      modifies this`index
      ensures Valid() && Abs() == Machine.OpFx1E(old(Abs()), x)
    {
      index := (index + registers[x]) % 0x10000;
    }

    method OpFx29(x: Nibble)
      requires Valid()
      modifies this`index
      ensures Valid() && Abs() == Machine.OpFx29(old(Abs()), x)
    {
      index := Machine.FontStartAddress + 5 * registers[x] as int;
    }

    method OpFx33(x: Nibble) returns (outcome: Machine.Outcome)
      requires Valid()
      modifies memory
      ensures Valid() && Machine.Next(Abs(), outcome) == Machine.OpFx33(old(Abs()), x)
    {
      if index + 2 >= Machine.MemorySize {
        return Machine.Raised(Machine.MemoryOutOfRange);
      }
      var value := registers[x];
      memory[index + 2] := value % 10;
      value := value / 10;
      memory[index + 1] := value % 10;
      value := value / 10;
      memory[index] := value;
      outcome := Machine.Executed;
    }

    method OpFx55(x: Nibble) returns (outcome: Machine.Outcome)
      requires Valid()
      modifies memory
      ensures Valid() && Machine.Next(Abs(), outcome) == Machine.OpFx55(old(Abs()), x)
    {
      var i := 0;
      while i <= x
        invariant 0 <= i <= x + 1 && i <= Machine.BlockCount(index, x)
        invariant forall a | 0 <= a < Machine.MemorySize ::
          memory[a] == if index <= a < index + i then registers[a - index] else old(memory[a])
      {
        if index + i >= Machine.MemorySize {
          outcome := Machine.Raised(Machine.MemoryOutOfRange);
          assert memory[..] == Machine.OpFx55(old(Abs()), x).state.memory;
          return;
        }
        memory[index + i] := registers[i];
        i := i + 1;
      }
      outcome := Machine.Executed;
      assert memory[..] == Machine.OpFx55(old(Abs()), x).state.memory;
    }

    method OpFx65(x: Nibble) returns (outcome: Machine.Outcome)
      requires Valid()
      modifies registers
      ensures Valid() && Machine.Next(Abs(), outcome) == Machine.OpFx65(old(Abs()), x)
    {
      var i := 0;
      while i <= x
        invariant 0 <= i <= x + 1 && i <= Machine.BlockCount(index, x)
        invariant forall j | 0 <= j < Machine.RegistersSize ::
          registers[j] == if j < i then memory[index + j] else old(registers[j])
      {
        if index + i >= Machine.MemorySize {
          outcome := Machine.Raised(Machine.MemoryOutOfRange);
          assert registers[..] == Machine.OpFx65(old(Abs()), x).state.registers;
          return;
        }
        registers[i] := memory[index + i];
        i := i + 1;
      }
      outcome := Machine.Executed;
      assert registers[..] == Machine.OpFx65(old(Abs()), x).state.registers;
    }
  }
}
