/** Properties of the machine that relate several instructions or several steps: what one step
    does to the PC and the timers, subroutine call and return, the sprite draw, the key wait,
    the register block copies and the font lookup. */
module Properties {
  import opened Bits
  import opened Decoder
  import opened Sprite
  import opened Machine

  /** Runs one step per random byte in `rnds`, as the host loop does, stopping at the first fault. */
  function Run(s: State, rnds: seq<Byte>): (r: Next)
    requires Valid(s)
    ensures Valid(r.state)
    decreases |rnds|
  {
    if rnds == [] then Ok(s)
    else
      var first := Step(s, rnds[0]);
      if first.outcome.Raised? then first else Run(first.state, rnds[1..])
  }

  /** The delay timer after one tick. */
  function Ticked(delay: Byte): Byte
  {
    if delay > 0 then delay - 1 else 0
  }

  /** A step executes the instruction whose nibbles are those of the two bytes at the PC. */
  lemma {:induction false} StepDecodes(s: State, rnd: Byte)
    requires Valid(s) && s.pc + 1 < MemorySize
    ensures var hi, lo := s.memory[s.pc], s.memory[s.pc + 1];
      Step(s, rnd) == Execute(Fetched(s), Nibbles(hi / 0x10, hi % 0x10, lo / 0x10, lo % 0x10), rnd)
  {
    var hi, lo := s.memory[s.pc], s.memory[s.pc + 1];
    DecodeBytes(hi, lo);
    assert GetBytes(Opcode(s)) == Nibbles(hi / 0x10, hi % 0x10, lo / 0x10, lo % 0x10);
  }

  /** The instructions that set or skip the PC themselves: return, jump, call, the skips, the
      computed jump and the key wait. */
  predicate ControlsPc(n: Nibbles)
  {
    || n == Nibbles(0x0, 0x0, 0xE, 0xE)
    || n.b1 in {0x1, 0x2, 0x3, 0x4, 0x5, 0x9, 0xB, 0xE}
    || (n.b1 == 0xF && n.b3 == 0x0 && n.b4 == 0xA)
  }

  /** Words that no pattern of the dispatch matches. */
  predicate Unmatched(n: Nibbles)
  {
    || (n.b1 == 0x5 && n.b4 != 0x0)
    || (n.b1 == 0x8 && n.b4 in {0x8, 0x9, 0xA, 0xB, 0xC, 0xD, 0xF})
    || (n.b1 == 0x9 && n.b4 != 0x0)
    || (n.b1 == 0xE && !(n.b3 == 0x9 && n.b4 == 0xE) && !(n.b3 == 0xA && n.b4 == 0x1))
    || (n.b1 == 0xF && (n.b3, n.b4) !in
         {(0x0, 0x7), (0x0, 0xA), (0x1, 0x5), (0x1, 0x8), (0x1, 0xE), (0x2, 0x9), (0x3, 0x3), (0x5, 0x5), (0x6, 0x5)})
  }

  /** One step moves the PC on by exactly 2 for every instruction that does not control the PC
      itself, ticks the delay timer unless the instruction is Fx15 (which sets it), and leaves
      the sound timer alone unless the instruction is Fx18 (which sets it): nothing else ever
      decrements the sound timer. */
  lemma {:induction false} StepPcAndTimers(s: State, rnd: Byte)
    requires Valid(s) && s.pc + 1 < MemorySize
    ensures var n, t := GetBytes(Opcode(s)), Step(s, rnd).state;
      && (!ControlsPc(n) ==> t.pc == s.pc + 2)
      && (!(n.b1 == 0xF && n.b3 == 0x1 && n.b4 == 0x5) ==> t.delay == Ticked(s.delay))
      && (!(n.b1 == 0xF && n.b3 == 0x1 && n.b4 == 0x8) ==> t.sound == s.sound)
  {
    var n := GetBytes(Opcode(s));
    var f := Fetched(s);
    assert Step(s, rnd) == Execute(f, n, rnd);
    match n
    case Nibbles(0xD, x, y, m) =>
      assert Execute(f, n, rnd) == OpDxyn(f, x, y, m);
    case Nibbles(0xF, x, 0x3, 0x3) =>
      assert Execute(f, n, rnd) == OpFx33(f, x);
    case Nibbles(0xF, x, 0x5, 0x5) =>
      assert Execute(f, n, rnd) == OpFx55(f, x);
    case Nibbles(0xF, x, 0x6, 0x5) =>
      assert Execute(f, n, rnd) == OpFx65(f, x);
    case _ =>
  }

  /** A word that matches no pattern changes nothing but the fetch's PC advance and timer tick. */
  lemma {:induction false} StepUnmatchedIsNoOp(s: State, rnd: Byte)
    requires Valid(s) && s.pc + 1 < MemorySize && Unmatched(GetBytes(Opcode(s)))
    ensures Step(s, rnd) == Ok(s.(pc := s.pc + 2, delay := Ticked(s.delay)))
  {
    var n := GetBytes(Opcode(s));
    assert Step(s, rnd) == Execute(Fetched(s), n, rnd);
  }

  /** A call pushes the address after the call instruction, and a return right after it
      restores the PC and the stack pointer; only the stack slot keeps the pushed address. */
  lemma CallThenReturn(s: State, nnn: nat)
    requires Valid(s) && s.sp < StackSize
    ensures Op2nnn(s, nnn).outcome == Executed
    ensures var c := Op2nnn(s, nnn).state; c.pc == nnn && c.sp == s.sp + 1 && c.stack[s.sp] == s.pc
    ensures Op00EE(Op2nnn(s, nnn).state) == Ok(s.(stack := s.stack[s.sp := s.pc]))
  {
  }

  /** A step on 2nnn calls the address nnn of that word. */
  lemma {:induction false} StepCalls(s: State, rnd: Byte)
    requires Valid(s) && s.pc + 1 < MemorySize && s.memory[s.pc] / 0x10 == 0x2
    ensures Step(s, rnd) == Op2nnn(Fetched(s), (s.memory[s.pc] as int % 0x10) * 0x100 + s.memory[s.pc + 1])
  {
    StepDecodes(s, rnd);
    var lo := s.memory[s.pc + 1];
    assert lo / 0x10 * 0x10 + lo % 0x10 == lo;
  }

  /** A step on 00EE returns. */
  lemma {:induction false} StepReturns(s: State, rnd: Byte)
    requires Valid(s) && s.pc + 1 < MemorySize && s.memory[s.pc] == 0x00 && s.memory[s.pc + 1] == 0xEE
    ensures Step(s, rnd) == Op00EE(Fetched(s))
  {
    StepDecodes(s, rnd);
  }

  /** Stepping over a call 2nnn to a subroutine whose first instruction is 00EE comes back to the
      instruction after the call, with the same stack depth; the timer has ticked twice. */
  lemma {:induction false} StepCallThenReturn(s: State, rnd1: Byte, rnd2: Byte)
    requires Valid(s) && s.pc + 1 < MemorySize && s.sp < StackSize
    requires s.memory[s.pc] / 0x10 == 0x2
    requires var nnn := (s.memory[s.pc] as int % 0x10) * 0x100 + s.memory[s.pc + 1];
      nnn + 1 < MemorySize && s.memory[nnn] == 0x00 && s.memory[nnn + 1] == 0xEE
    ensures Run(s, [rnd1, rnd2]) ==
      Ok(s.(stack := s.stack[s.sp := s.pc + 2], pc := s.pc + 2, delay := Ticked(Ticked(s.delay))))
  {
    StepCalls(s, rnd1);
    var c := Step(s, rnd1);
    StepReturns(c.state, rnd2);
    var r := Step(c.state, rnd2);
    assert Run(c.state, [rnd2]) == r;
    assert [rnd1, rnd2][1..] == [rnd2];
  }

  /** What a draw does to the display and to VF: exactly the pixels under set sprite bits are
      flipped, every other pixel keeps its value, and VF ends 1 exactly when a set bit landed
      on a pixel that was lit. */
  lemma {:induction false} DrawEffect(s: State, x: Nibble, y: Nibble, n: Nibble)
    requires Valid(s)
    ensures
      var xPos, yPos, rows := s.registers[x] % Width, s.registers[y] % Height, SpriteRows(s.index, n);
      var t := OpDxyn(s, x, y, n).state;
      && (forall r, c | 0 <= r < rows && 0 <= c < 8 && SpriteBit(s.memory, s.index, r, c) ::
            t.display[Target(xPos, yPos, r, c)] == !s.display[Target(xPos, yPos, r, c)])
      && (forall p | 0 <= p < PixelCount &&
            (forall r, c | 0 <= r < rows && 0 <= c < 8 && SpriteBit(s.memory, s.index, r, c) :: Target(xPos, yPos, r, c) != p) ::
            t.display[p] == s.display[p])
      && (t.registers[VF] == 1 <==> Collides(s.memory, s.index, s.display, xPos, yPos, rows))
  {
    var xPos, yPos, rows := s.registers[x] % Width, s.registers[y] % Height, SpriteRows(s.index, n);
    forall r, c | 0 <= r < rows && 0 <= c < 8 && SpriteBit(s.memory, s.index, r, c) {
      FlippedUnderSprite(s.memory, s.index, s.display, xPos, yPos, rows, r, c);
    }
    forall p | 0 <= p < PixelCount &&
        (forall r, c | 0 <= r < rows && 0 <= c < 8 && SpriteBit(s.memory, s.index, r, c) :: Target(xPos, yPos, r, c) != p) {
      FlippedElsewhere(s.memory, s.index, s.display, xPos, yPos, rows, p);
    }
    CollidesBefore(s.memory, s.index, s.display, xPos, yPos, rows);
  }

  /** Some set bit of a `rows`-row sprite lands on a pixel lit in `display`. */
  predicate Collides(mem: seq<Byte>, index: nat, display: seq<bool>, xPos: nat, yPos: nat, rows: nat)
    requires |display| == PixelCount
  {
    exists r, c | 0 <= r < rows && 0 <= c < 8 && SpriteBit(mem, index, r, c) :: display[Target(xPos, yPos, r, c)]
  }

  /** The collision a whole draw loop accumulates is `Collides`. */
  lemma {:induction false} CollidesBefore(mem: seq<Byte>, index: nat, display: seq<bool>, xPos: nat, yPos: nat, rows: nat)
    requires |display| == PixelCount
    ensures CollisionBefore(mem, index, display, xPos, yPos, rows, 0) <==> Collides(mem, index, display, xPos, yPos, rows)
  {
    if CollisionBefore(mem, index, display, xPos, yPos, rows, 0) {
      var r: nat, c: nat :| r <= rows && c < 8 && Before(r, c, rows, 0) && SpriteBit(mem, index, r, c)
        && display[Target(xPos, yPos, r, c)];
      assert r < rows;
    }
    if Collides(mem, index, display, xPos, yPos, rows) {
      var r, c :| 0 <= r < rows && 0 <= c < 8 && SpriteBit(mem, index, r, c) && display[Target(xPos, yPos, r, c)];
      assert Before(r, c, rows, 0);
    }
  }

  /** Drawing the same sprite twice at the same place (neither coordinate register being VF,
      which the first draw overwrites) restores the display; the second draw reports a collision
      exactly when some pixel under the sprite was dark before the first. */
  lemma {:induction false} DrawTwiceRestores(s: State, x: Nibble, y: Nibble, n: Nibble)
    requires Valid(s) && x != VF && y != VF
    ensures
      var xPos, yPos, rows := s.registers[x] % Width, s.registers[y] % Height, SpriteRows(s.index, n);
      var t := OpDxyn(OpDxyn(s, x, y, n).state, x, y, n).state;
      && t.display == s.display
      && (t.registers[VF] == 1 <==>
            exists r, c | 0 <= r < rows && 0 <= c < 8 && SpriteBit(s.memory, s.index, r, c) ::
              !s.display[Target(xPos, yPos, r, c)])
  {
    var xPos, yPos, rows := s.registers[x] % Width, s.registers[y] % Height, SpriteRows(s.index, n);
    var first := OpDxyn(s, x, y, n).state;
    var t := OpDxyn(first, x, y, n).state;
    assert first.registers[x] == s.registers[x] && first.registers[y] == s.registers[y];
    assert first.display == Flipped(s.memory, s.index, s.display, xPos, yPos, rows);
    FlippedTwice(s.memory, s.index, s.display, xPos, yPos, rows);
    CollidesBefore(s.memory, s.index, first.display, xPos, yPos, rows);
    if t.registers[VF] == 1 {
      var r, c :| 0 <= r < rows && 0 <= c < 8 && SpriteBit(s.memory, s.index, r, c)
        && first.display[Target(xPos, yPos, r, c)];
      FlippedUnderSprite(s.memory, s.index, s.display, xPos, yPos, rows, r, c);
    }
    if exists r, c | 0 <= r < rows && 0 <= c < 8 && SpriteBit(s.memory, s.index, r, c) ::
         !s.display[Target(xPos, yPos, r, c)] {
      var r, c :| 0 <= r < rows && 0 <= c < 8 && SpriteBit(s.memory, s.index, r, c)
        && !s.display[Target(xPos, yPos, r, c)];
      FlippedUnderSprite(s.memory, s.index, s.display, xPos, yPos, rows, r, c);
      assert Collides(s.memory, s.index, first.display, xPos, yPos, rows);
    }
  }

  /** With no key pressed, a step on Fx0A leaves everything as it was except the delay timer:
      the PC advance of the fetch is undone and Vx is not written. */
  lemma {:induction false} KeyWaitStalls(s: State, rnd: Byte)
    requires Valid(s) && s.pc + 1 < MemorySize && s.key == None
    requires s.memory[s.pc] / 0x10 == 0xF && s.memory[s.pc + 1] == 0x0A
    ensures Step(s, rnd) == Ok(s.(delay := Ticked(s.delay)))
  {
    StepDecodes(s, rnd);
  }

  /** With key `k` pressed, a step on Fx0A stores `k` in Vx and moves on to the next instruction. */
  lemma {:induction false} KeyWaitResumes(s: State, rnd: Byte, k: Nibble)
    requires Valid(s) && s.pc + 1 < MemorySize && s.key == Some(k)
    requires s.memory[s.pc] / 0x10 == 0xF && s.memory[s.pc + 1] == 0x0A
    ensures Step(s, rnd) ==
      Ok(s.(registers := s.registers[s.memory[s.pc] % 0x10 := k], pc := s.pc + 2, delay := Ticked(s.delay)))
  {
    StepDecodes(s, rnd);
  }

  /** However many steps run while no key is pressed, the machine stays on Fx0A with nothing
      changed except the delay timer, which keeps counting down to 0. */
  lemma {:induction false} KeyWaitHolds(s: State, rnds: seq<Byte>)
    requires Valid(s) && s.pc + 1 < MemorySize && s.key == None
    requires s.memory[s.pc] / 0x10 == 0xF && s.memory[s.pc + 1] == 0x0A
    ensures Run(s, rnds) == Ok(s.(delay := if s.delay >= |rnds| then s.delay - |rnds| else 0))
    decreases |rnds|
  {
    if rnds != [] {
      KeyWaitStalls(s, rnds[0]);
      KeyWaitHolds(s.(delay := Ticked(s.delay)), rnds[1..]);
    }
  }

  /** Ex9E and ExA1 are complementary: for any key slot and Vx, exactly one of them skips. */
  lemma KeySkipsComplementary(s: State, x: Nibble)
    requires Valid(s)
    ensures (OpEx9E(s, x).pc == s.pc + 2) != (OpExA1(s, x).pc == s.pc + 2)
    ensures OpEx9E(s, x).pc + OpExA1(s, x).pc == 2 * s.pc + 2
  {
  }

  /** Storing V0..Vx and then loading them back from the same place changes nothing more. */
  lemma {:induction false} StoreThenLoad(s: State, x: Nibble)
    requires Valid(s) && s.index + x < MemorySize
    ensures var stored := OpFx55(s, x).state; OpFx65(stored, x) == Ok(stored)
  {
    var stored := OpFx55(s, x).state;
    assert OpFx65(stored, x).state.registers == stored.registers;
  }

  /** Loading V0..Vx and then storing them back to the same place changes nothing more. */
  lemma {:induction false} LoadThenStore(s: State, x: Nibble)
    requires Valid(s) && s.index + x < MemorySize
    ensures var loaded := OpFx65(s, x).state; OpFx55(loaded, x) == Ok(loaded)
  {
    var loaded := OpFx65(s, x).state;
    assert OpFx55(loaded, x).state.memory == loaded.memory;
  }

  /** While the font table is in place, Fx29 with a digit in Vx points I at that digit's five glyph rows. */
  lemma {:induction false} GlyphAddress(s: State, x: Nibble)
    requires Valid(s) && s.registers[x] < 16
    requires s.memory[FontStartAddress..FontStartAddress + |Font|] == Font
    ensures var t, d := OpFx29(s, x), s.registers[x];
      t.index + 5 <= MemorySize && t.memory[t.index..t.index + 5] == Font[5 * d..5 * d + 5]
  {
    var d := s.registers[x];
    var t := OpFx29(s, x);
    assert t.memory[t.index..t.index + 5] == s.memory[FontStartAddress..FontStartAddress + |Font|][5 * d..5 * d + 5];
  }

  /** 6xkk then 7xkk on the same register leaves the byte sum of the two immediates. */
  lemma SetThenAdd(s: State, x: Nibble, kk1: Byte, kk2: Byte)
    requires Valid(s)
    ensures Op7xkk(Op6xkk(s, x, kk1), x, kk2).registers[x] == (kk1 + kk2) % 0x100
  {
  }

  /** A step on 6xkk loads the immediate into Vx. */
  lemma {:induction false} StepLoadsImmediate(s: State, rnd: Byte)
    requires Valid(s) && s.pc + 1 < MemorySize && s.memory[s.pc] / 0x10 == 0x6
    ensures Step(s, rnd) == Ok(Op6xkk(Fetched(s), s.memory[s.pc] % 0x10, s.memory[s.pc + 1]))
  {
    StepDecodes(s, rnd);
    var lo := s.memory[s.pc + 1];
    assert lo / 0x10 * 0x10 + lo % 0x10 == lo;
  }

  /** A step on 7xkk adds the immediate to Vx. */
  lemma {:induction false} StepAddsImmediate(s: State, rnd: Byte)
    requires Valid(s) && s.pc + 1 < MemorySize && s.memory[s.pc] / 0x10 == 0x7
    ensures Step(s, rnd) == Ok(Op7xkk(Fetched(s), s.memory[s.pc] % 0x10, s.memory[s.pc + 1]))
  {
    StepDecodes(s, rnd);
    var lo := s.memory[s.pc + 1];
    assert lo / 0x10 * 0x10 + lo % 0x10 == lo;
  }

  /** The four-byte program of `SetAndAddProgram`, loaded into a fresh machine. */
  lemma {:induction false} ProgramLoaded()
    ensures var loaded := LoadRom(Init(), [0x60, 0x05, 0x70, 0x03]); var s := loaded.0;
      && loaded.1 && Valid(s) && s.pc == StartAddress && s.registers[0] == 0
      && s.memory[StartAddress..StartAddress + 4] == [0x60, 0x05, 0x70, 0x03]
  {
    var rom: seq<Byte> := [0x60, 0x05, 0x70, 0x03];
    var s := LoadRom(Init(), rom).0;
    forall i | 0 <= i < 4 ensures s.memory[StartAddress + i] == rom[i] {}
  }

  /** A four-byte program that sets V0 to 5 and adds 3, loaded into a fresh machine, leaves 8
      in V0 and the PC after the program once two steps have run. */
  lemma {:induction false} SetAndAddProgram(rnd1: Byte, rnd2: Byte)
    ensures var loaded := LoadRom(Init(), [0x60, 0x05, 0x70, 0x03]);
      var r := Run(loaded.0, [rnd1, rnd2]);
      loaded.1 && r.outcome == Executed && r.state.registers[0] == 8 && r.state.pc == StartAddress + 4
  {
    ProgramLoaded();
    var s := LoadRom(Init(), [0x60, 0x05, 0x70, 0x03]).0;
    assert s.memory[StartAddress] == 0x60 && s.memory[StartAddress + 1] == 0x05
      && s.memory[StartAddress + 2] == 0x70 && s.memory[StartAddress + 3] == 0x03 by {
      assert s.memory[StartAddress..StartAddress + 4][0] == s.memory[StartAddress];
      assert s.memory[StartAddress..StartAddress + 4][1] == s.memory[StartAddress + 1];
      assert s.memory[StartAddress..StartAddress + 4][2] == s.memory[StartAddress + 2];
      assert s.memory[StartAddress..StartAddress + 4][3] == s.memory[StartAddress + 3];
    }
    StepLoadsImmediate(s, rnd1);
    var s1 := Step(s, rnd1);
    StepAddsImmediate(s1.state, rnd2);
    var s2 := Step(s1.state, rnd2);
    assert Run(s1.state, [rnd2]) == s2;
    assert [rnd1, rnd2][1..] == [rnd2];
  }
}
