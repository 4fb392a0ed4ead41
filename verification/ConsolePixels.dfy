/** What is on the screen: bytes of a pitched framebuffer, the pixels they make, and the text they show. */
module ConsolePixels {
  import opened Bits
  import opened Strings

  const FG := 0x00c8f0c8
  const BG := 0x00060f0a

  /** Framebuffer and font geometry, with the text grid that fits. `pitch` is bytes per scanline. */
  datatype Kit = Kit(width: nat, height: nat, pitch: nat, cols: nat, rows: nat,
                     glyphW: nat, glyphH: nat, count: nat, glyphBytes: nat, glyphs: seq<Byte>)

  /** A cell holds a glyph whose bottom pixel row may have been painted over, by the cursor or by its removal. */
  datatype Look = Plain | Clipped | Underlined
  datatype Cell = Cell(glyph: nat, look: Look)

  const BLANK := Cell(0, Plain)

  function GlyphByte(k: Kit, ch: nat, i: nat, j: nat): nat {
    ch * k.glyphBytes + j * ((k.glyphW + 7) / 8) + i / 8
  }

  /** Bit i of a byte, counted from the lowest. */
  function Bit(v: Byte, i: nat): nat {
    Shr(v, i) % 2
  }

  /** Pixel (i, j) of a glyph: rows of whole bytes, leftmost pixel in the highest bit. */
  function GlyphBit(k: Kit, ch: nat, i: nat, j: nat): nat {
    var at := GlyphByte(k, ch, i, j);
    if at < |k.glyphs| then Bit(k.glyphs[at], 7 - i % 8) else 0
  }

  /** The font's bytes are what the glyphs' pixels spell, row after row: eight pixels to a byte, the leftmost
      counting most. */
  lemma {:induction false} GlyphSpelt(k: Kit, ch: nat, j: nat, b: nat, at: nat)
    requires at == ch * k.glyphBytes + j * ((k.glyphW + 7) / 8) + b < |k.glyphs|
    ensures k.glyphs[at] ==
      128 * GlyphBit(k, ch, 8 * b, j) + 64 * GlyphBit(k, ch, 8 * b + 1, j) + 32 * GlyphBit(k, ch, 8 * b + 2, j)
      + 16 * GlyphBit(k, ch, 8 * b + 3, j) + 8 * GlyphBit(k, ch, 8 * b + 4, j) + 4 * GlyphBit(k, ch, 8 * b + 5, j)
      + 2 * GlyphBit(k, ch, 8 * b + 6, j) + GlyphBit(k, ch, 8 * b + 7, j)
  {
    GlyphBitIs(k, ch, j, b, at, 0);
    GlyphBitIs(k, ch, j, b, at, 1);
    GlyphBitIs(k, ch, j, b, at, 2);
    GlyphBitIs(k, ch, j, b, at, 3);
    GlyphBitIs(k, ch, j, b, at, 4);
    GlyphBitIs(k, ch, j, b, at, 5);
    GlyphBitIs(k, ch, j, b, at, 6);
    GlyphBitIs(k, ch, j, b, at, 7);
    hide GlyphBit, Bit;
    ByteSpelt(k.glyphs[at]);
  }

  lemma GlyphBitIs(k: Kit, ch: nat, j: nat, b: nat, at: nat, i: nat)
    requires at == ch * k.glyphBytes + j * ((k.glyphW + 7) / 8) + b < |k.glyphs| && i < 8
    ensures GlyphBit(k, ch, 8 * b + i, j) == Bit(k.glyphs[at], 7 - i)
  {
    hide Shr;
    assert (8 * b + i) / 8 == b && (8 * b + i) % 8 == i;
  }

  lemma ByteSpelt(v: Byte)
    ensures v == 128 * Bit(v, 7) + 64 * Bit(v, 6) + 32 * Bit(v, 5) + 16 * Bit(v, 4) + 8 * Bit(v, 3) + 4 * Bit(v, 2)
                 + 2 * Bit(v, 1) + Bit(v, 0)
  {
    ShrNext(v, 0);
    ShrNext(v, 1);
    ShrNext(v, 2);
    ShrNext(v, 3);
    ShrNext(v, 4);
    ShrNext(v, 5);
    ShrNext(v, 6);
    LastBit(v);
    hide Shr, Bit;
  }

  lemma LastBit(v: Byte)
    ensures Shr(v, 0) == v
    ensures Shr(v, 7) < 2 ==> Bit(v, 7) == Shr(v, 7)
  {
  }

  lemma ShrNext(x: Byte, k: nat)
    ensures Shr(x, k) == 2 * Shr(x, k + 1) + Bit(x, k)
  {
    ShrAdd(x, k, 1);
    assert Shr(Shr(x, k), 1) == Shr(Shr(x, k) / 2, 0);
  }

  ghost predicate KitOk(k: Kit) {
    && k.glyphW > 0 && k.glyphH > 0 && k.cols > 0 && k.rows > 0 && k.count > 0
    && 4 * k.width <= k.pitch
    && k.cols * k.glyphW <= k.width && k.rows * k.glyphH <= k.height
    && k.height < k.rows * k.glyphH + k.glyphH
    && k.count * k.glyphBytes <= |k.glyphs| && k.glyphH * ((k.glyphW + 7) / 8) <= k.glyphBytes
    && forall i: nat, j: nat :: i < k.glyphW && j < k.glyphH ==> GlyphBit(k, 0, i, j) == 0
  }

  function CellColour(k: Kit, cell: Cell, i: nat, j: nat): int {
    if cell.look.Clipped? && j == k.glyphH - 1 then BG
    else if cell.look.Underlined? && j == k.glyphH - 1 then FG
    else if GlyphBit(k, cell.glyph, i, j) == 1 then FG else BG
  }

  // ---- bytes and pixels --------------------------------------------------------------------

  function Offset(k: Kit, x: nat, y: nat): nat {
    y * k.pitch + 4 * x
  }

  function Pixel(fb: seq<Byte>, k: Kit, x: nat, y: nat): int {
    var o := Offset(k, x, y);
    if o + 4 <= |fb|
    then fb[o] as int + 0x100 * fb[o + 1] as int + 0x1_0000 * fb[o + 2] as int + 0x100_0000 * fb[o + 3] as int
    else 0
  }

  /** A little-endian 32-bit store. */
  function SetWord(fb: seq<Byte>, o: nat, c: nat): (r: seq<Byte>)
    requires o + 4 <= |fb|
    ensures |r| == |fb|
  {
    fb[o := c % 0x100][o + 1 := c / 0x100 % 0x100][o + 2 := c / 0x1_0000 % 0x100][o + 3 := c / 0x100_0000 % 0x100]
  }

  /** Blue first, then green and red: the background's bytes in memory. */
  lemma BackgroundBytes(fb: seq<Byte>, o: nat)
    requires o + 4 <= |fb|
    ensures SetWord(fb, o, BG)[o..o + 4] == [0x0a, 0x0f, 0x06, 0x00]
  {
  }

  predicate Visible(k: Kit, x: nat, y: nat) {
    x < k.width && y < k.height
  }

  lemma RowsApart(p: nat, x: nat, y: nat, v: nat)
    requires 4 * x + 4 <= p && y < v
    ensures y * p + 4 * x + 4 <= v * p
  {
    MulAtLeast(v - y, p);
    assert (v - y) * p == v * p - y * p;
  }

  lemma OffsetInside(k: Kit, x: nat, y: nat, n: nat)
    requires KitOk(k) && Visible(k, x, y) && k.height * k.pitch <= n
    ensures Offset(k, x, y) + 4 <= n
  {
    RowsApart(k.pitch, x, y, k.height);
  }

  /** Different visible pixels share no byte. */
  lemma PixelsApart(k: Kit, x: nat, y: nat, u: nat, v: nat)
    requires KitOk(k) && Visible(k, x, y) && Visible(k, u, v) && (x, y) != (u, v)
    ensures Offset(k, x, y) + 4 <= Offset(k, u, v) || Offset(k, u, v) + 4 <= Offset(k, x, y)
  {
    if y < v {
      RowsApart(k.pitch, x, y, v);
    } else if v < y {
      RowsApart(k.pitch, u, v, y);
    }
  }

  lemma WordReads(c: nat)
    requires c < 0x1_0000_0000
    ensures c % 0x100 + 0x100 * (c / 0x100 % 0x100) + 0x1_0000 * (c / 0x1_0000 % 0x100)
            + 0x100_0000 * (c / 0x100_0000 % 0x100) == c
  {
  }

  /** Storing one pixel changes that pixel and no other. */
  lemma SetWordSays(fb: seq<Byte>, k: Kit, x: nat, y: nat, c: nat, u: nat, v: nat)
    requires KitOk(k) && k.height * k.pitch <= |fb| && c < 0x1_0000_0000
    requires Visible(k, x, y) && Visible(k, u, v)
    ensures Offset(k, x, y) + 4 <= |fb|
    ensures Pixel(SetWord(fb, Offset(k, x, y), c), k, u, v) == if (u, v) == (x, y) then c else Pixel(fb, k, u, v)
  {
    hide KitOk, Offset;
    OffsetInside(k, x, y, |fb|);
    if (u, v) == (x, y) {
      WordReads(c);
    } else {
      PixelsApart(k, x, y, u, v);
    }
  }

  // ---- painting rectangles -----------------------------------------------------------------

  datatype Rect = Rect(x0: nat, x1: nat, y0: nat, y1: nat)

  /** One colour, or the glyph `ch` with its top left pixel at (px, py). */
  datatype Paint = Flat(colour: nat) | Stamp(ch: nat, px: nat, py: nat)

  function PaintAt(k: Kit, p: Paint, x: nat, y: nat): nat {
    match p
    case Flat(colour) => colour
    case Stamp(ch, px, py) => if x >= px && y >= py && GlyphBit(k, ch, x - px, y - py) == 1 then FG else BG
  }

  predicate InRect(r: Rect, x: nat, y: nat) {
    r.x0 <= x < r.x1 && r.y0 <= y < r.y1
  }

  /** Painting left to right, top to bottom, has come to (xx, yy). */
  predicate Before(x: nat, y: nat, xx: nat, yy: nat) {
    y < yy || (y == yy && x < xx)
  }

  ghost predicate Part(was: seq<Byte>, fb: seq<Byte>, k: Kit, r: Rect, p: Paint, xx: nat, yy: nat) {
    && |fb| == |was|
    && forall x: nat, y: nat :: Visible(k, x, y) ==>
         Pixel(fb, k, x, y) ==
           if InRect(r, x, y) && Before(x, y, xx, yy) then PaintAt(k, p, x, y) else Pixel(was, k, x, y)
  }

  ghost predicate Painted(was: seq<Byte>, fb: seq<Byte>, k: Kit, r: Rect, p: Paint) {
    && |fb| == |was|
    && forall x: nat, y: nat :: Visible(k, x, y) ==>
         Pixel(fb, k, x, y) == if InRect(r, x, y) then PaintAt(k, p, x, y) else Pixel(was, k, x, y)
  }

  lemma PartStart(fb: seq<Byte>, k: Kit, r: Rect, p: Paint)
    ensures Part(fb, fb, k, r, p, r.x0, r.y0)
  {
    hide Pixel;
  }

  lemma {:induction false} PartStep(was: seq<Byte>, fb: seq<Byte>, k: Kit, r: Rect, p: Paint, xx: nat, yy: nat)
    requires KitOk(k) && Part(was, fb, k, r, p, xx, yy) && k.height * k.pitch <= |was|
    requires InRect(r, xx, yy) && r.x1 <= k.width && r.y1 <= k.height && PaintAt(k, p, xx, yy) < 0x1_0000_0000
    ensures Offset(k, xx, yy) + 4 <= |fb|
    ensures Part(was, SetWord(fb, Offset(k, xx, yy), PaintAt(k, p, xx, yy)), k, r, p, xx + 1, yy)
  {
    hide KitOk, Pixel, SetWord, Offset, PaintAt;
    SetWordSays(fb, k, xx, yy, PaintAt(k, p, xx, yy), xx, yy);
    var now := SetWord(fb, Offset(k, xx, yy), PaintAt(k, p, xx, yy));
    forall x: nat, y: nat | Visible(k, x, y)
      ensures Pixel(now, k, x, y) ==
              if InRect(r, x, y) && Before(x, y, xx + 1, yy) then PaintAt(k, p, x, y) else Pixel(was, k, x, y)
    {
      SetWordSays(fb, k, xx, yy, PaintAt(k, p, xx, yy), x, y);
    }
  }

  lemma PartRow(was: seq<Byte>, fb: seq<Byte>, k: Kit, r: Rect, p: Paint, yy: nat)
    requires Part(was, fb, k, r, p, r.x1, yy)
    ensures Part(was, fb, k, r, p, r.x0, yy + 1)
  {
    hide Pixel, PaintAt;
  }

  lemma PartDone(was: seq<Byte>, fb: seq<Byte>, k: Kit, r: Rect, p: Paint)
    requires Part(was, fb, k, r, p, r.x0, r.y1)
    ensures Painted(was, fb, k, r, p)
  {
    hide Pixel, PaintAt;
  }
}
