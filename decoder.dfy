/** Splitting an instruction word into its four nibbles and the two operand encodings. */
module Decoder {
  import opened Bits

  /** The four nibbles of a word, most significant first: the list `[byte_1, byte_2, byte_3, byte_4]`. */
  datatype Nibbles = Nibbles(b1: Nibble, b2: Nibble, b3: Nibble, b4: Nibble)

  /** Reassembles a word from its nibbles: `(b1 << 12) | (b2 << 8) | (b3 << 4) | b4`. */
  function Encode(n: Nibbles): Word
  {
    n.b1 * 0x1000 + n.b2 * 0x100 + n.b3 * 0x10 + n.b4
  }

  /** `get_bytes`: each nibble is the word masked and shifted down, `(op & 0xF000) >> 12` and so on.
      The four nibbles put back together give the word. */
  function GetBytes(op: Word): (r: Nibbles)
    ensures r.b1 * 0x1000 + r.b2 * 0x100 + r.b3 * 0x10 + r.b4 == op
  {
    var r := Nibbles(op / 0x1000, (op / 0x100) % 0x10, (op / 0x10) % 0x10, op % 0x10);
    assert op == (op / 0x10) * 0x10 + r.b4;
    assert op / 0x10 == (op / 0x100) * 0x10 + r.b3;
    assert op / 0x100 == (op / 0x1000) * 0x10 + r.b2;
    r
  }

  /** `get_nnn`: the low three nibbles as a 12-bit address. */
  function GetNnn(n: Nibbles): (nnn: nat)
    ensures nnn < 0x1000
  {
    n.b2 * 0x100 + n.b3 * 0x10 + n.b4
  }

  /** `get_kk`: the low two nibbles as an 8-bit immediate. */
  function GetKk(n: Nibbles): (kk: Byte)
    ensures kk == Encode(n) % 0x100
  {
    n.b3 * 0x10 + n.b4
  }

  /** Decoding after encoding gives the nibbles back: no two nibble lists share a word. */
  lemma {:induction false} GetBytesEncode(n: Nibbles)
    ensures GetBytes(Encode(n)) == n
  {
    var op := Encode(n);
    // Both are base-16 expansions of the same number; peel off one digit at a time.
    var q1 := n.b1 * 0x100 + n.b2 * 0x10 + n.b3;
    assert op == q1 * 0x10 + n.b4;
    DigitSplit(op, q1, n.b4);
    var q2 := n.b1 * 0x10 + n.b2;
    DigitSplit(q1, q2, n.b3);
    DigitSplit(q2, n.b1, n.b2);
    assert op / 0x100 == q2 by { DivTwice(op); }
    assert op / 0x1000 == n.b1 by { DivTwice(op / 0x10); DivTwice(op); }
  }

  /** A number written as `q * 16 + d` with a digit `d` has quotient `q` and remainder `d`. */
  lemma DigitSplit(a: int, q: int, d: Nibble)
    requires a == q * 0x10 + d
    ensures a / 0x10 == q && a % 0x10 == d
  {
  }

  lemma DivTwice(a: nat)
    ensures a / 0x10 / 0x10 == a / 0x100 && a / 0x100 / 0x10 == a / 0x1000
  {
  }

  /** The word fetched from a high and a low byte splits into the nibbles of each byte. */
  lemma {:induction false} DecodeBytes(hi: Byte, lo: Byte)
    ensures GetBytes(hi * 0x100 + lo) == Nibbles(hi / 0x10, hi % 0x10, lo / 0x10, lo % 0x10)
  {
    var n := Nibbles(hi / 0x10, hi % 0x10, lo / 0x10, lo % 0x10);
    assert Encode(n) == hi * 0x100 + lo;
    GetBytesEncode(n);
  }

  /** The 12-bit address of a word is the word's low 12 bits. */
  lemma {:induction false} NnnOfWord(op: Word)
    ensures GetNnn(GetBytes(op)) == op % 0x1000
  {
    var r := GetBytes(op);
    assert op == r.b1 * 0x1000 + GetNnn(r);
  }

  /** The 8-bit immediate of a word is the word's low byte. */
  lemma {:induction false} KkOfWord(op: Word)
    ensures GetKk(GetBytes(op)) == op % 0x100
  {
    var r := GetBytes(op);
    assert op == (r.b1 * 0x10 + r.b2) * 0x100 + GetKk(r);
  }
}
