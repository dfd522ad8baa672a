/** Geometry of the sprite draw (Dxyn): where each sprite bit lands on the 64x32 display,
    with wrap-around at both edges, and which pixels a draw has flipped so far. */
module Sprite {
  import opened Bits

  const Width: nat := 64
  const Height: nat := 32
  const PixelCount: nat := 2048

  /** The display position (row-major) under sprite row `r`, column `c` when the sprite is
      anchored at (`xPos`, `yPos`): both coordinates wrap. */
  function Target(xPos: nat, yPos: nat, r: nat, c: nat): (p: nat)
    ensures p < PixelCount
  {
    ((yPos + r) % Height) * Width + (xPos + c) % Width
  }

  /** The sprite row that would land on pixel `p` (the inverse of `Target` along rows). */
  function RowOffset(p: nat, yPos: nat): nat
  {
    (p / Width - yPos) % Height
  }

  /** The sprite column that would land on pixel `p` (the inverse of `Target` along columns). */
  function ColOffset(p: nat, xPos: nat): nat
  {
    (p % Width - xPos) % Width
  }

  /** Bit `c` of sprite row `r`, read from `mem[index + r]`; false where that address is past the end of memory. */
  predicate SpriteBit(mem: seq<Byte>, index: nat, r: nat, c: nat)
  {
    c < 8 && index + r < |mem| && BitAt(mem[index + r], c)
  }

  /** (`r`, `c`) is visited before (`row`, `col`) by the row-by-row, column-by-column draw loop. */
  predicate Before(r: nat, c: nat, row: nat, col: nat)
  {
    r < row || (r == row && c < col)
  }

  /** Pixel `p` lies under a set sprite bit that the draw loop has visited before (`row`, `col`).
      With (`row`, `col`) = (rows, 0) these are the pixels a whole draw of `rows` rows flips. */
  predicate DrawnBefore(mem: seq<Byte>, index: nat, xPos: nat, yPos: nat, row: nat, col: nat, p: nat)
  {
    var r := RowOffset(p, yPos);
    var c := ColOffset(p, xPos);
    Before(r, c, row, col) && SpriteBit(mem, index, r, c)
  }

  /** Some set sprite bit visited before (`row`, `col`) lands on a pixel lit in `display`.
      Nothing has been visited before (0, 0), so the flag starts cleared, as the draw clears VF
      before its loop. */
  predicate CollisionBefore(mem: seq<Byte>, index: nat, display: seq<bool>, xPos: nat, yPos: nat, row: nat, col: nat)
    requires |display| == PixelCount
    ensures row == 0 && col == 0 ==> !CollisionBefore(mem, index, display, xPos, yPos, row, col)
  {
    exists r: nat, c: nat | r <= row && c < 8 && Before(r, c, row, col) && SpriteBit(mem, index, r, c) ::
      display[Target(xPos, yPos, r, c)]
  }

  /** The display after flipping every pixel under a set bit of a `rows`-row sprite. */
  function Flipped(mem: seq<Byte>, index: nat, display: seq<bool>, xPos: nat, yPos: nat, rows: nat): (d: seq<bool>)
    requires |display| == PixelCount
    ensures |d| == PixelCount
    ensures rows == 0 ==> d == display
  {
    seq(PixelCount, p requires 0 <= p < PixelCount => display[p] != DrawnBefore(mem, index, xPos, yPos, rows, 0, p))
  }

  /** Sprite positions inside one screen map to distinct pixels: the offsets of `Target` give back the position. */
  lemma {:induction false} TargetOffsets(xPos: nat, yPos: nat, r: nat, c: nat)
    requires xPos < Width && yPos < Height && r < Height && c < Width
    ensures RowOffset(Target(xPos, yPos, r, c), yPos) == r
    ensures ColOffset(Target(xPos, yPos, r, c), xPos) == c
  {
    var p := Target(xPos, yPos, r, c);
    var py, px := (yPos + r) % Height, (xPos + c) % Width;
    RowColSplit(p, py, px);
    if yPos + r < Height {
      assert py == yPos + r;
    } else {
      assert py == yPos + r - Height;
    }
    if xPos + c < Width {
      assert px == xPos + c;
    } else {
      assert px == xPos + c - Width;
    }
  }

  /** Every pixel is the target of its own offsets. */
  lemma {:induction false} OffsetsTarget(p: nat, xPos: nat, yPos: nat)
    requires p < PixelCount && xPos < Width && yPos < Height
    ensures Target(xPos, yPos, RowOffset(p, yPos), ColOffset(p, xPos)) == p
  {
    var py, px := p / Width, p % Width;
    assert py < Height;
    var r, c := RowOffset(p, yPos), ColOffset(p, xPos);
    if py >= yPos {
      assert r == py - yPos;
    } else {
      assert r == py - yPos + Height;
    }
    assert (yPos + r) % Height == py;
    if px >= xPos {
      assert c == px - xPos;
    } else {
      assert c == px - xPos + Width;
    }
    assert (xPos + c) % Width == px;
  }

  lemma RowColSplit(p: nat, py: nat, px: nat)
    requires px < Width && p == py * Width + px
    ensures p / Width == py && p % Width == px
  {
  }

  /** Visiting (`row`, `col`) adds exactly its target pixel, when the bit there is set. */
  lemma {:induction false} DrawnStep(mem: seq<Byte>, index: nat, xPos: nat, yPos: nat, row: nat, col: nat, p: nat)
    requires xPos < Width && yPos < Height && row < Height && col < 8 && p < PixelCount
    ensures DrawnBefore(mem, index, xPos, yPos, row, col + 1, p) <==>
      DrawnBefore(mem, index, xPos, yPos, row, col, p) ||
      (p == Target(xPos, yPos, row, col) && SpriteBit(mem, index, row, col))
  {
    TargetOffsets(xPos, yPos, row, col);
    OffsetsTarget(p, xPos, yPos);
  }

  /** The pixel under (`row`, `col`) has not been flipped before the loop reaches it. */
  lemma {:induction false} NotYetDrawn(mem: seq<Byte>, index: nat, xPos: nat, yPos: nat, row: nat, col: nat)
    requires xPos < Width && yPos < Height && row < Height && col < 8
    ensures !DrawnBefore(mem, index, xPos, yPos, row, col, Target(xPos, yPos, row, col))
  {
    TargetOffsets(xPos, yPos, row, col);
  }

  /** Visiting (`row`, `col`) raises a collision exactly when its bit is set over a lit pixel. */
  lemma {:induction false} CollisionStep(mem: seq<Byte>, index: nat, display: seq<bool>, xPos: nat, yPos: nat, row: nat, col: nat)
    requires |display| == PixelCount && col < 8
    ensures CollisionBefore(mem, index, display, xPos, yPos, row, col + 1) <==>
      CollisionBefore(mem, index, display, xPos, yPos, row, col) ||
      (SpriteBit(mem, index, row, col) && display[Target(xPos, yPos, row, col)])
  {
    if SpriteBit(mem, index, row, col) && display[Target(xPos, yPos, row, col)] {
      assert Before(row, col, row, col + 1);
    }
    if CollisionBefore(mem, index, display, xPos, yPos, row, col + 1) {
      var r: nat, c: nat :| r <= row && c < 8 && Before(r, c, row, col + 1) && SpriteBit(mem, index, r, c)
        && display[Target(xPos, yPos, r, c)];
      if Before(r, c, row, col) {
        assert CollisionBefore(mem, index, display, xPos, yPos, row, col);
      }
    }
  }

  /** Finishing column 7 of a row is the same as starting the next row. */
  lemma {:induction false} RowDone(mem: seq<Byte>, index: nat, display: seq<bool>, xPos: nat, yPos: nat, row: nat, p: nat)
    requires |display| == PixelCount
    ensures DrawnBefore(mem, index, xPos, yPos, row, 8, p) <==> DrawnBefore(mem, index, xPos, yPos, row + 1, 0, p)
    ensures CollisionBefore(mem, index, display, xPos, yPos, row, 8) <==>
      CollisionBefore(mem, index, display, xPos, yPos, row + 1, 0)
  {
    if CollisionBefore(mem, index, display, xPos, yPos, row + 1, 0) {
      var r: nat, c: nat :| r <= row + 1 && c < 8 && Before(r, c, row + 1, 0) && SpriteBit(mem, index, r, c)
        && display[Target(xPos, yPos, r, c)];
      assert Before(r, c, row, 8);
    }
  }

  /** Every pixel under a set bit of a sprite of at most 16 rows is flipped by the draw. */
  lemma {:induction false} FlippedUnderSprite(mem: seq<Byte>, index: nat, display: seq<bool>, xPos: nat, yPos: nat,
                                              rows: nat, r: nat, c: nat)
    requires |display| == PixelCount && xPos < Width && yPos < Height && rows <= 16
    requires r < rows && c < 8 && SpriteBit(mem, index, r, c)
    ensures Flipped(mem, index, display, xPos, yPos, rows)[Target(xPos, yPos, r, c)] == !display[Target(xPos, yPos, r, c)]
  {
    TargetOffsets(xPos, yPos, r, c);
  }

  /** Every pixel not under a set bit of the sprite keeps its value. */
  lemma {:induction false} FlippedElsewhere(mem: seq<Byte>, index: nat, display: seq<bool>, xPos: nat, yPos: nat,
                                            rows: nat, p: nat)
    requires |display| == PixelCount && xPos < Width && yPos < Height && p < PixelCount
    requires forall r, c | 0 <= r < rows && 0 <= c < 8 && SpriteBit(mem, index, r, c) :: Target(xPos, yPos, r, c) != p
    ensures Flipped(mem, index, display, xPos, yPos, rows)[p] == display[p]
  {
    OffsetsTarget(p, xPos, yPos);
  }

  /** Flipping the same sprite twice gives the display back. */
  lemma FlippedTwice(mem: seq<Byte>, index: nat, display: seq<bool>, xPos: nat, yPos: nat, rows: nat)
    requires |display| == PixelCount
    ensures Flipped(mem, index, Flipped(mem, index, display, xPos, yPos, rows), xPos, yPos, rows) == display
  {
  }
}
