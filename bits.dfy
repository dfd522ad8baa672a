/** Machine-width integer types and the bitwise operators the interpreter applies to bytes. */
module Bits {

  /** A 4-bit field of an instruction word (also a register number and a key value). */
  type Nibble = x: int | 0 <= x < 16

  /** A register or memory cell. */
  type Byte = x: int | 0 <= x < 256

  /** An instruction word: two memory bytes, big-endian. */
  type Word = x: int | 0 <= x < 0x10000

  /** Bitwise OR: a bit of the result is set exactly when it is set in either operand. */
  function Or(a: Byte, b: Byte): (r: Byte)
    ensures forall col | 0 <= col < 8 :: BitAt(r, col) <==> BitAt(a, col) || BitAt(b, col)
  {
    var v := (a as bv8) | (b as bv8);
    ByteRoundTrip(v);
    forall col | 0 <= col < 8 ensures BitAt(v as int, col) <==> BitAt(a, col) || BitAt(b, col) {
      BitwiseAt(a as bv8, b as bv8, col);
      BitAtOf(v as int, v, col);
      BitAtOf(a, a as bv8, col);
      BitAtOf(b, b as bv8, col);
    }
    v as int
  }

  /** Bitwise AND: a bit of the result is set exactly when it is set in both operands. */
  function And(a: Byte, b: Byte): (r: Byte)
    ensures forall col | 0 <= col < 8 :: BitAt(r, col) <==> BitAt(a, col) && BitAt(b, col)
  {
    var v := (a as bv8) & (b as bv8);
    ByteRoundTrip(v);
    forall col | 0 <= col < 8 ensures BitAt(v as int, col) <==> BitAt(a, col) && BitAt(b, col) {
      BitwiseAt(a as bv8, b as bv8, col);
      BitAtOf(v as int, v, col);
      BitAtOf(a, a as bv8, col);
      BitAtOf(b, b as bv8, col);
    }
    v as int
  }

  /** Bitwise XOR: a bit of the result is set exactly when the operands differ there. */
  function Xor(a: Byte, b: Byte): (r: Byte)
    ensures forall col | 0 <= col < 8 :: BitAt(r, col) <==> BitAt(a, col) != BitAt(b, col)
  {
    var v := (a as bv8) ^ (b as bv8);
    ByteRoundTrip(v);
    forall col | 0 <= col < 8 ensures BitAt(v as int, col) <==> BitAt(a, col) != BitAt(b, col) {
      BitwiseAt(a as bv8, b as bv8, col);
      BitAtOf(v as int, v, col);
      BitAtOf(a, a as bv8, col);
      BitAtOf(b, b as bv8, col);
    }
    v as int
  }

  lemma ByteRoundTrip(v: bv8)
    ensures 0 <= v as int < 256 && (v as int) as bv8 == v
  {
  }

  lemma BitAtOf(b: Byte, v: bv8, col: nat)
    requires col < 8 && v == b as bv8
    ensures BitAt(b, col) <==> v & (0x80 >> col) != 0
  {
  }

  /** One bit of `|`, `&` and `^` depends only on that bit of each operand. */
  lemma {:induction false} BitwiseAt(x: bv8, y: bv8, col: nat)
    requires col < 8
    ensures var m: bv8 := 0x80 >> col;
      && ((x | y) & m != 0 <==> x & m != 0 || y & m != 0)
      && ((x & y) & m != 0 <==> x & m != 0 && y & m != 0)
      && ((x ^ y) & m != 0 <==> (x & m != 0) != (y & m != 0))
  {
  }

  /** Bit `col` of a sprite byte, counted from the most significant bit: `b & (0x80 >> col)`. */
  predicate BitAt(b: Byte, col: nat)
    requires col < 8
  {
    (b as bv8) & (0x80 >> col) != 0
  }
}
