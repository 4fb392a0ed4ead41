/** The framebuffer console: pixel loops over the bytes, proved to show the terminal's text at all times. */
module ConsoleDriver {
  import opened Bits
  import opened Strings
  import opened ConsolePixels
  import opened ConsoleScreen
  import opened ConsoleText

  const PSF2_MAGIC := 0x864ab572

  /** The n-th 32-bit field of the font's header. */
  function Field(font: seq<Byte>, n: nat): nat
    requires 4 * n + 4 <= |font|
  {
    font[4 * n] as int + 0x100 * font[4 * n + 1] as int + 0x1_0000 * font[4 * n + 2] as int
    + 0x100_0000 * font[4 * n + 3] as int
  }

  predicate GoodHeader(font: seq<Byte>)
    requires |font| >= 32
  {
    Field(font, 0) == PSF2_MAGIC && Field(font, 7) != 0 && Field(font, 6) != 0
  }

  /** A number as four bytes, lowest first. */
  function Le32(x: nat): (s: seq<Byte>)
    ensures |s| == 4
  {
    [x % 0x100, x / 0x100 % 0x100, x / 0x1_0000 % 0x100, x / 0x100_0000 % 0x100]
  }

  /** A font file: the eight fields of a PSF2 header in the order of that format, padding up to the glyphs,
      and the glyphs. */
  function Psf2(version: nat, headerSize: nat, flags: nat, length: nat, charSize: nat, height: nat, width: nat,
                padding: seq<Byte>, glyphs: seq<Byte>): seq<Byte>
  {
    [0x72, 0xb5, 0x4a, 0x86] + Le32(version) + Le32(headerSize) + Le32(flags) + Le32(length) + Le32(charSize)
    + Le32(height) + Le32(width) + padding + glyphs
  }

  lemma FieldAt(font: seq<Byte>, n: nat, x: nat)
    requires 4 * n + 4 <= |font| && font[4 * n..4 * n + 4] == Le32(x) && x < 0x1_0000_0000
    ensures Field(font, n) == x
  {
    var f := font[4 * n..4 * n + 4];
    assert font[4 * n] == f[0] && font[4 * n + 1] == f[1] && font[4 * n + 2] == f[2] && font[4 * n + 3] == f[3];
    WordReads(x);
  }

  /** What the console works with: glyph size and count from the header, glyphs behind it. */
  function KitFor(font: seq<Byte>, width: nat, height: nat, pitch: nat): Kit
    requires |font| >= 32 && GoodHeader(font) && Field(font, 2) <= |font|
  {
    Kit(width, height, pitch, Quot(width, Field(font, 7)), Quot(height, Field(font, 6)),
        Field(font, 7), Field(font, 6), Field(font, 4), Field(font, 5), font[Field(font, 2)..])
  }

  /** Reading a font file gives back what was written: the console draws with its glyphs, at their size, on
      the largest grid of whole cells that fits. */
  lemma {:induction false} FontRead(version: nat, headerSize: nat, flags: nat, length: nat, charSize: nat,
                                    glyphH: nat, glyphW: nat, padding: seq<Byte>, glyphs: seq<Byte>, width: nat,
                                    height: nat, pitch: nat)
    requires headerSize == 32 + |padding| < 0x1_0000_0000 && length < 0x1_0000_0000
    requires charSize < 0x1_0000_0000 && 0 < glyphH < 0x1_0000_0000 && 0 < glyphW < 0x1_0000_0000
    ensures var font := Psf2(version, headerSize, flags, length, charSize, glyphH, glyphW, padding, glyphs);
      && |font| >= 32 && GoodHeader(font) && Field(font, 2) <= |font|
      && var k := KitFor(font, width, height, pitch);
         && k.glyphs == glyphs && k.glyphBytes == charSize && k.count == length
         && k.glyphW == glyphW && k.glyphH == glyphH && k.width == width && k.height == height && k.pitch == pitch
         && k.cols * glyphW <= width < k.cols * glyphW + glyphW && k.rows * glyphH <= height < k.rows * glyphH + glyphH
  {
    var font := Psf2(version, headerSize, flags, length, charSize, glyphH, glyphW, padding, glyphs);
    HeaderSlices(version, headerSize, flags, length, charSize, glyphH, glyphW, padding, glyphs);
    hide Psf2, Le32, Field, Quot;
    FieldAt(font, 0, 0x864ab572);
    FieldAt(font, 2, headerSize);
    FieldAt(font, 4, length);
    FieldAt(font, 5, charSize);
    FieldAt(font, 6, glyphH);
    FieldAt(font, 7, glyphW);
    WholeCells(width, glyphW);
    WholeCells(height, glyphH);
  }

  /** A font is usable just when it begins with the four bytes of the format and its glyphs are not empty. */
  lemma {:induction false} UsableFontIff(font: seq<Byte>)
    requires |font| >= 32
    ensures GoodHeader(font) <==>
      && font[0..4] == [0x72, 0xb5, 0x4a, 0x86]
      && font[24..28] != [0, 0, 0, 0] && font[28..32] != [0, 0, 0, 0]
  {
    FieldBytes(font, 0, 0x72, 0xb5, 0x4a, 0x86);
    FieldBytes(font, 6, 0, 0, 0, 0);
    FieldBytes(font, 7, 0, 0, 0, 0);
  }

  lemma FieldBytes(font: seq<Byte>, n: nat, a: Byte, b: Byte, c: Byte, d: Byte)
    requires 4 * n + 4 <= |font|
    ensures Field(font, n) == a as int + 0x100 * b as int + 0x1_0000 * c as int + 0x100_0000 * d as int <==>
            font[4 * n..4 * n + 4] == [a, b, c, d]
  {
    assert font[4 * n..4 * n + 4] == [font[4 * n], font[4 * n + 1], font[4 * n + 2], font[4 * n + 3]];
    if Field(font, n) == a as int + 0x100 * b as int + 0x1_0000 * c as int + 0x100_0000 * d as int {
      SameBytes(font[4 * n], font[4 * n + 1], font[4 * n + 2], font[4 * n + 3], a, b, c, d);
    }
  }

  lemma SameBytes(x: Byte, y: Byte, z: Byte, u: Byte, a: Byte, b: Byte, c: Byte, d: Byte)
    requires x + 0x100 * y + 0x1_0000 * z + 0x100_0000 * u == a + 0x100 * b + 0x1_0000 * c + 0x100_0000 * d
    ensures x == a && y == b && z == c && u == d
  {
    LowByte(x, y + 0x100 * z + 0x1_0000 * u, a, b + 0x100 * c + 0x1_0000 * d);
    LowByte(y, z + 0x100 * u, b, c + 0x100 * d);
    LowByte(z, u, c, d);
  }

  lemma LowByte(x: Byte, y: nat, a: Byte, b: nat)
    requires x + 0x100 * y == a + 0x100 * b
    ensures x == a && y == b
  {
  }

  lemma HeaderSlices(version: nat, headerSize: nat, flags: nat, length: nat, charSize: nat, glyphH: nat, glyphW: nat,
                     padding: seq<Byte>, glyphs: seq<Byte>)
    ensures var font := Psf2(version, headerSize, flags, length, charSize, glyphH, glyphW, padding, glyphs);
      && |font| == 32 + |padding| + |glyphs|
      && font[0..4] == Le32(0x864ab572) && font[8..12] == Le32(headerSize) && font[16..20] == Le32(length)
      && font[20..24] == Le32(charSize) && font[24..28] == Le32(glyphH) && font[28..32] == Le32(glyphW)
      && font[32 + |padding|..] == glyphs
  {
    assert Le32(0x864ab572) == [0x72, 0xb5, 0x4a, 0x86];
    hide Le32;
  }

  lemma WholeCells(x: nat, size: nat)
    requires size > 0
    ensures Quot(x, size) * size <= x < Quot(x, size) * size + size
  {
    Quotient(x, size, 0);
  }

  /** The glyphs lie in the font, each has all its rows, and glyph 0 is blank. */
  ghost predicate GoodGlyphs(k: Kit) {
    && k.count > 0 && k.count * k.glyphBytes <= |k.glyphs| && k.glyphH * ((k.glyphW + 7) / 8) <= k.glyphBytes
    && forall i: nat, j: nat :: i < k.glyphW && j < k.glyphH ==> GlyphBit(k, 0, i, j) == 0
  }

  /** A 32-bit framebuffer whose scanlines hold the visible pixels and on which a glyph fits. */
  predicate GoodFrame(k: Kit, bpp: nat, length: nat) {
    bpp == 32 && 4 * k.width <= k.pitch && k.height * k.pitch <= length && k.glyphW <= k.width && k.glyphH <= k.height
  }

  lemma KitForOk(font: seq<Byte>, width: nat, height: nat, pitch: nat, bpp: nat, length: nat)
    requires |font| >= 32 && GoodHeader(font) && Field(font, 2) <= |font|
    requires var k := KitFor(font, width, height, pitch); GoodGlyphs(k) && GoodFrame(k, bpp, length)
    ensures KitOk(KitFor(font, width, height, pitch))
  {
    hide Field, GlyphBit, Quot, Rest;
    var k := KitFor(font, width, height, pitch);
    Quotient(width, k.glyphW, 1);
    Quotient(height, k.glyphH, 1);
    assert Quot(width, k.glyphW) > 0 && Quot(height, k.glyphH) > 0;
  }

  /** All bytes of the glyph's rows are there. */
  lemma GlyphInside(k: Kit, ch: nat, i: nat, j: nat)
    requires KitOk(k) && ch < k.count && i < k.glyphW && j < k.glyphH
    ensures GlyphByte(k, ch, i, j) < |k.glyphs|
  {
    var gw := (k.glyphW + 7) / 8;
    assert i / 8 < gw;
    CellBound(k.glyphH, gw, j, i / 8);
    CellBound(k.count, k.glyphBytes, ch, 0);
  }

  lemma StopIs(col: nat)
    requires col < Pow2(32)
    ensures Pow2(32) >= 8 && And(col, Pow2(32) - 8) + 8 == NextStop(col)
  {
    EightIsPow2();
    hide And, Pow2;
    AndHighMask(col, 3, 32);
  }

  lemma EightIsPow2()
    ensures Pow2(3) == 8
  {
  }

  class Console {
    var fb: array<Byte>
    var kit: Kit
    var curCol: nat
    var curRow: nat
    var ready: bool
    ghost var text: Text

    /** Able to draw. */
    ghost predicate Armed()
      reads this
    {
      KitOk(kit) && kit.height * kit.pitch <= fb.Length && kit.width < Pow2(32)
    }

    /** The framebuffer shows the text, with no cursor. */
    ghost predicate Bare(t: Text)
      reads this, fb
    {
      Armed() && TextOk(kit, t) && t.col == curCol && t.row == curRow && Shows(fb[..], kit, t.grid)
    }

    ghost predicate Valid()
      reads this, fb
    {
      ready ==>
        && Armed() && Settled(kit, text) && text.col == curCol && text.row == curRow
        && Shows(fb[..], kit, WithCursor(kit, text))
    }

    method PutPixel(x: nat, y: nat, colour: nat)
      requires Armed() && Visible(kit, x, y) && colour < 0x1_0000_0000
      modifies fb
      ensures Offset(kit, x, y) + 4 <= fb.Length
      ensures fb[..] == SetWord(old(fb[..]), Offset(kit, x, y), colour)
    {
      OffsetInside(kit, x, y, fb.Length);
      var o := y * kit.pitch + 4 * x;
      fb[o], fb[o + 1] := colour % 0x100, colour / 0x100 % 0x100;
      fb[o + 2], fb[o + 3] := colour / 0x1_0000 % 0x100, colour / 0x100_0000 % 0x100;
    }

    /** One pixel of a rectangle painted left to right, top to bottom. */
    method PaintPixel(ghost was: seq<Byte>, ghost r: Rect, ghost p: Paint, x: nat, y: nat, colour: nat)
      requires Armed() && Part(was, fb[..], kit, r, p, x, y) && colour == PaintAt(kit, p, x, y) < 0x1_0000_0000
      requires InRect(r, x, y) && r.x1 <= kit.width && r.y1 <= kit.height
      modifies fb
      ensures Part(was, fb[..], kit, r, p, x + 1, y)
    {
      assert |was| == fb.Length;
      hide Part, KitOk, SetWord, Offset, PaintAt, Pow2;
      PartStep(was, fb[..], kit, r, p, x, y);
      PutPixel(x, y, colour);
    }

    /** Paint a glyph over the cell at (col, row); the blank one if the font has no such glyph. */
    method DrawCell(c: nat, col: nat, row: nat)
      requires Armed() && col < kit.cols && row < kit.rows
      modifies fb
      ensures Painted(old(fb[..]), fb[..], kit, CellRect(kit, col, row),
                      Stamp(if c < kit.count then c else 0, col * kit.glyphW, row * kit.glyphH))
    {
      hide KitOk, Shr, Part, Painted, InRect, PaintAt, Pow2, CellRect;
      var ch := if c >= kit.count then 0 else c;
      var px0, py0 := col * kit.glyphW, row * kit.glyphH;
      var gwBytes := (kit.glyphW + 7) / 8;
      ghost var was, rect, p := fb[..], CellRect(kit, col, row), Stamp(ch, px0, py0);
      CellExtent(kit, col, row);
      PartStart(was, kit, rect, p);
      var r := 0;
      while r < kit.glyphH
        invariant r <= kit.glyphH && Part(was, fb[..], kit, rect, p, px0, py0 + r)
      {
        var cx := 0;
        while cx < kit.glyphW
          invariant cx <= kit.glyphW && Part(was, fb[..], kit, rect, p, px0 + cx, py0 + r)
        {
          PixelStored(kit, ch, col, row, cx, r);
          var byte := kit.glyphs[ch * kit.glyphBytes + r * gwBytes + cx / 8];
          var bit := Shr(byte, 7 - cx % 8) % 2;
          PaintPixel(was, rect, p, px0 + cx, py0 + r, if bit == 1 then FG else BG);
          cx := cx + 1;
        }
        PartRow(was, fb[..], kit, rect, p, py0 + r);
        r := r + 1;
      }
      PartDone(was, fb[..], kit, rect, p);
    }

    /** Paint the bottom pixel row of the cursor's cell. */
    method PaintCursor(colour: nat)
      requires Armed() && curCol < kit.cols && curRow < kit.rows && colour < 0x1_0000_0000
      modifies fb
      ensures Painted(old(fb[..]), fb[..], kit, LineRect(kit, curCol, curRow), Flat(colour))
    {
      var y := curRow * kit.glyphH + (kit.glyphH - 1);
      var x0 := curCol * kit.glyphW;
      ghost var was, rect := fb[..], LineRect(kit, curCol, curRow);
      PartStart(was, kit, rect, Flat(colour));
      CellInside(kit, curCol, curRow, 0, 0);
      var x := 0;
      while x < kit.glyphW
        invariant x <= kit.glyphW && Part(was, fb[..], kit, rect, Flat(colour), x0 + x, y)
      {
        PaintPixel(was, rect, Flat(colour), x0 + x, y, colour);
        x := x + 1;
      }
      PartRow(was, fb[..], kit, rect, Flat(colour), y);
      PartDone(was, fb[..], kit, rect, Flat(colour));
    }

    /** Background over all visible pixels from scanline y0 down. */
    method Blank(y0: nat)
      requires Armed() && y0 <= kit.height
      modifies fb
      ensures Painted(old(fb[..]), fb[..], kit, Rect(0, kit.width, y0, kit.height), Flat(BG))
    {
      ghost var was, rect := fb[..], Rect(0, kit.width, y0, kit.height);
      PartStart(was, kit, rect, Flat(BG));
      var y := y0;
      while y < kit.height
        invariant y0 <= y <= kit.height && Part(was, fb[..], kit, rect, Flat(BG), 0, y)
      {
        var x := 0;
        while x < kit.width
          invariant x <= kit.width && Part(was, fb[..], kit, rect, Flat(BG), x, y)
        {
          PaintPixel(was, rect, Flat(BG), x, y, BG);
          x := x + 1;
        }
        PartRow(was, fb[..], kit, rect, Flat(BG), y);
        y := y + 1;
      }
      PartDone(was, fb[..], kit, rect, Flat(BG));
    }

    /** Move the picture up by one text row and blank the last one. */
    method Scroll(ghost g: Grid)
      requires Armed() && Shows(fb[..], kit, g)
      modifies fb
      ensures Shows(fb[..], kit, Scrolled(kit, g))
    {
      hide KitOk, Shows, Painted, Pow2;
      ghost var was := fb[..];
      MoveFits(kit);
      LastRow(kit);
      MemMove(fb, 0, kit.glyphH * kit.pitch, (kit.height - kit.glyphH) * kit.pitch);
      Blank((kit.rows - 1) * kit.glyphH);
      ScrollShows(was, fb[..], kit, g);
    }

    method NewLine(ghost t: Text)
      requires Bare(t)
      modifies this`curCol, this`curRow, fb
      ensures Bare(ConsoleText.NewLine(kit, t))
    {
      hide KitOk, Shows, Pow2, Scrolled;
      RowsPositive(kit);
      curCol := 0;
      curRow := curRow + 1;
      if curRow >= kit.rows {
        Scroll(t.grid);
        curRow := kit.rows - 1;
      }
    }

    /** Draw a glyph where the cursor is, which stays there. */
    method DrawHere(ghost t: Text, c: nat)
      requires Bare(t)
      modifies fb
      ensures Bare(DrawAt(kit, t, c))
    {
      hide KitOk, Shows, Pow2, Painted;
      ghost var was := fb[..];
      DrawCell(c, curCol, curRow);
      Stamped(was, fb[..], kit, t.grid, curCol, curRow, Known(kit, c));
    }

    /** One cell right, wrapping to a new line. */
    method Right(ghost t: Text)
      requires Bare(t)
      modifies this`curCol, this`curRow, fb
      ensures Bare(Advance(kit, t))
    {
      hide KitOk, Shows, Pow2, ConsoleText.NewLine;
      if curCol + 1 >= kit.cols {
        NewLine(t);
      } else {
        curCol := curCol + 1;
      }
    }

    method TabStop(ghost t: Text)
      requires Bare(t)
      modifies this`curCol, this`curRow, fb
      ensures Bare(BlankTo(kit, t, NextStop(t.col)))
    {
      hide KitOk, Shows, Pow2, And, NextStop, BlankTo, GridOk;
      ColumnsFit(kit);
      StopIs(curCol);
      hide TextOk;
      Blanks(t, And(curCol, Pow2(32) - 8) + 8);
    }

    /** Blank the cells up to column `target`, or to the end of the line. */
    method Blanks(ghost t: Text, target: nat)
      requires Bare(t)
      modifies this`curCol, this`curRow, fb
      ensures Bare(BlankTo(kit, t, target))
    {
      hide KitOk, Shows, Pow2, ConsoleText.NewLine, DrawAt, BlankTo, GridOk;
      ghost var u := t;
      while curCol < target
        invariant Bare(u) && kit == old(kit) && fb == old(fb) && BlankTo(kit, u, target) == BlankTo(kit, t, target)
        decreases target - curCol
      {
        BlankToStep(kit, u, target);
        DrawHere(u, 0);
        u := DrawAt(kit, u, 0);
        if curCol + 1 >= kit.cols {
          NewLine(u);
          return;
        }
        curCol := curCol + 1;
        u := u.(col := u.col + 1);
      }
      BlankToDone(kit, u, target);
    }

    /** What the character does to a screen whose cursor has been taken down. */
    method Apply(ghost t: Text, c: Byte)
      requires Bare(t)
      modifies this`curCol, this`curRow, fb
      ensures Bare(Act(kit, t, c))
    {
      hide KitOk, Shows, Pow2, ConsoleText.NewLine, DrawAt, NextStop, BlankTo;
      if c == NEWLINE {
        NewLine(t);
      } else if c == RETURN {
        curCol := 0;
      } else if c == BACKSPACE {
        if curCol > 0 {
          curCol := curCol - 1;
        } else if curRow > 0 {
          curRow := curRow - 1;
          curCol := kit.cols - 1;
        }
        DrawHere(StepBack(kit, t), 0);
      } else if c == TAB {
        TabStop(t);
      } else if c >= 0x20 {
        DrawHere(t, c);
        Right(DrawAt(kit, t, c));
      }
    }

    /** One character. Whatever it is, the framebuffer shows the new text with the cursor under it. */
    method Putc(c: Byte)
      requires Valid()
      modifies this`curCol, this`curRow, this`text, fb
      ensures Valid() && ready == old(ready) && kit == old(kit)
      ensures ready ==> text == Put(kit, old(text), c)
      ensures ready && c >= 0x20 && (old(curCol) + 1 < kit.cols || old(curRow) + 1 < kit.rows) ==>
        && TextOk(kit, text) && old(curCol) < kit.cols && old(curRow) < kit.rows
        && text.grid[old(curRow)][old(curCol)] == Cell(if c < kit.count then c else 0, Plain)
      ensures !ready ==> fb[..] == old(fb[..])
    {
      if !ready {
        return;
      }
      TextIsOk();
      CellShown(kit, text, c);
      hide KitOk, Shows, Pow2, Act, GridOk, WithCursor, Bare, Put, TextOk, Settle, Settled;
      TakeDown();
      Apply(text, c);
      PutUp(Act(kit, text, c));
    }

    /** The cursor off the screen. */
    method TakeDown()
      requires Valid() && ready
      modifies fb
      ensures Bare(text)
    {
      hide KitOk, Shows, Pow2, Painted, GridOk;
      ghost var was := fb[..];
      PaintCursor(BG);
      CursorErased(was, fb[..], kit, text);
    }

    /** The cursor back on, over whatever cell it is on now. */
    method PutUp(ghost t: Text)
      requires Bare(t) && ready
      modifies this`text, fb
      ensures Valid() && text == Settle(kit, t)
    {
      hide KitOk, Shows, Pow2, Painted, GridOk;
      ghost var was := fb[..];
      PaintCursor(FG);
      CursorDrawn(was, fb[..], kit, t);
      SettleSettles(kit, t);
      text := Settle(kit, t);
    }

    lemma TextIsOk()
      requires Valid()
      ensures ready ==> TextOk(kit, text) && text.col == curCol && text.row == curRow
    {
    }

    /** The characters up to the terminating zero. */
    method Write(s: seq<Byte>)
      requires Valid() && 0 in s
      modifies this`curCol, this`curRow, this`text, fb
      ensures Valid() && ready == old(ready) && kit == old(kit)
      ensures exists n ::
        0 <= n < |s| && s[n] == 0 && 0 !in s[..n] && (ready ==> text == PutAll(kit, old(text), s[..n]))
    {
      hide Put, PutAll, TextOk, Valid;
      TextIsOk();
      assert s[..0] == [] && s[0..] == s;
      if ready { PutNothing(kit, text, s); }
      var i := 0;
      while s[i] != 0
        invariant i < |s| && 0 !in s[..i] && 0 in s[i..]
        invariant Valid() && ready == old(ready) && kit == old(kit) && fb == old(fb)
        invariant ready ==> TextOk(kit, old(text)) && text == PutAll(kit, old(text), s[..i])
        decreases |s| - i
      {
        if ready { PutNext(kit, old(text), s, i); }
        Putc(s[i]);
        assert s[..i + 1][..i] == s[..i] && s[i..] == [s[i]] + s[i + 1..];
        i := i + 1;
      }
    }

    /** Parse the font and clear the screen, or stay silent when the font is unusable. */
    constructor (fb: array<Byte>, width: nat, height: nat, pitch: nat, bpp: nat, font: seq<Byte>)
      requires |font| >= 32 && Field(font, 2) <= |font| && width < Pow2(32)
      requires GoodHeader(font) ==>
        var k := KitFor(font, width, height, pitch); GoodGlyphs(k) && GoodFrame(k, bpp, fb.Length)
      modifies fb
      ensures Valid() && this.fb == fb && ready == GoodHeader(font)
      ensures ready ==> kit == KitFor(font, width, height, pitch) && text == Start(kit)
      ensures !ready ==> fb[..] == old(fb[..])
    {
      this.fb := fb;
      curCol, curRow, text := 0, 0, Text([], 0, 0);
      kit := Kit(0, 0, 0, 0, 0, 0, 0, 0, 0, []);
      ready := false;
      new;
      Setup(width, height, pitch, bpp, font);
    }

    method Setup(width: nat, height: nat, pitch: nat, bpp: nat, font: seq<Byte>)
      requires !ready && curCol == curRow == 0
      requires |font| >= 32 && Field(font, 2) <= |font| && width < Pow2(32)
      requires GoodHeader(font) ==>
        var k := KitFor(font, width, height, pitch); GoodGlyphs(k) && GoodFrame(k, bpp, fb.Length)
      modifies this`kit, this`ready, this`text, fb
      ensures Valid() && ready == GoodHeader(font)
      ensures ready ==> kit == KitFor(font, width, height, pitch) && text == Start(kit)
      ensures !ready ==> fb[..] == old(fb[..])
    {
      hide Field, GoodGlyphs, Shows, Pow2, KitOk, Start, Clean;
      if Field(font, 0) != PSF2_MAGIC || Field(font, 7) == 0 || Field(font, 6) == 0 {
        return;
      }
      KitForOk(font, width, height, pitch, bpp, fb.Length);
      kit := KitFor(font, width, height, pitch);
      ready := true;
      ClearScreen();
      SettleClean(kit, Start(kit));
      PutUp(Start(kit));
    }

    method ClearScreen()
      requires Armed() && curCol == curRow == 0
      modifies fb
      ensures Bare(Start(kit)) && Clean(kit, Start(kit))
    {
      hide KitOk, Shows, Painted, Pow2;
      ghost var was := fb[..];
      StartIsClean(kit);
      Blank(0);
      Cleared(was, fb[..], kit);
    }
  }

  lemma CellShown(k: Kit, t: Text, c: Byte)
    requires TextOk(k, t)
    ensures Put(k, t, c) == Settle(k, Act(k, t, c)) && TextOk(k, Put(k, t, c))
    ensures c >= 0x20 && (t.col + 1 < k.cols || t.row + 1 < k.rows) ==>
      Put(k, t, c).grid[t.row][t.col] == Cell(if c < k.count then c else 0, Plain)
  {
    if c >= 0x20 && (t.col + 1 < k.cols || t.row + 1 < k.rows) { PrintedStays(k, t, c); }
  }

  lemma SettleSettles(k: Kit, t: Text)
    requires TextOk(k, t)
    ensures Settled(k, Settle(k, t))
  {
  }

  lemma CellExtent(k: Kit, c: nat, r: nat)
    requires KitOk(k) && c < k.cols && r < k.rows
    ensures k.count > 0
    ensures CellRect(k, c, r) == Rect(c * k.glyphW, c * k.glyphW + k.glyphW, r * k.glyphH, r * k.glyphH + k.glyphH)
  {
  }

  /** What the double loop reads and stores for pixel (i, j) of a cell. */
  lemma PixelStored(k: Kit, ch: nat, c: nat, r: nat, i: nat, j: nat)
    requires KitOk(k) && ch < k.count && c < k.cols && r < k.rows && i < k.glyphW && j < k.glyphH
    ensures GlyphByte(k, ch, i, j) < |k.glyphs|
    ensures var rect := CellRect(k, c, r);
      InRect(rect, c * k.glyphW + i, r * k.glyphH + j) && rect.x1 <= k.width && rect.y1 <= k.height
    ensures PaintAt(k, Stamp(ch, c * k.glyphW, r * k.glyphH), c * k.glyphW + i, r * k.glyphH + j) ==
      if GlyphBit(k, ch, i, j) == 1 then FG else BG
  {
    CellInside(k, c, r, i, j);
    GlyphInside(k, ch, i, j);
    hide KitOk, GlyphByte, GlyphBit;
  }

  lemma PutNothing(k: Kit, t: Text, s: seq<Byte>)
    requires TextOk(k, t)
    ensures PutAll(k, t, s[..0]) == t
  {
  }

  lemma PutNext(k: Kit, t: Text, s: seq<Byte>, i: nat)
    requires TextOk(k, t) && i < |s|
    ensures PutAll(k, t, s[..i + 1]) == Put(k, PutAll(k, t, s[..i]), s[i])
  {
    hide Put;
    assert s[..i + 1][..i] == s[..i];
  }

  lemma BlankToStep(k: Kit, t: Text, target: nat)
    requires TextOk(k, t) && t.col < target
    ensures DrawAt(k, t, 0).col == t.col
    ensures t.col + 1 >= k.cols ==> BlankTo(k, t, target) == ConsoleText.NewLine(k, DrawAt(k, t, 0))
    ensures t.col + 1 < k.cols ==> BlankTo(k, t, target) == BlankTo(k, DrawAt(k, t, 0).(col := t.col + 1), target)
  {
    hide ConsoleText.NewLine;
  }

  lemma BlankToDone(k: Kit, t: Text, target: nat)
    requires TextOk(k, t) && t.col >= target
    ensures BlankTo(k, t, target) == t
  {
  }

  lemma RowsPositive(k: Kit)
    requires KitOk(k)
    ensures k.rows > 0 && k.cols > 0
  {
  }

  lemma ColumnsFit(k: Kit)
    requires KitOk(k)
    ensures k.cols <= k.width
  {
    assert k.glyphW > 0 && k.cols * k.glyphW <= k.width;
    hide KitOk;
    MulAtLeast(k.glyphW, k.cols);
    assert k.glyphW * k.cols == k.cols * k.glyphW;
  }

  /** Painting the cursor's line in the background leaves the text without a cursor. */
  lemma CursorErased(was: seq<Byte>, now: seq<Byte>, k: Kit, t: Text)
    requires KitOk(k) && Settled(k, t) && Shows(was, k, WithCursor(k, t))
    requires Painted(was, now, k, LineRect(k, t.col, t.row), Flat(BG))
    ensures Shows(now, k, t.grid)
  {
    RowsPositive(k);
    hide KitOk, Shows, Painted;
    var c: nat, r: nat, g: Grid := t.col, t.row, t.grid;
    var glyph := g[r][c].glyph;
    LinePainted(was, now, k, WithCursor(k, t), c, r, BG, Clipped);
    SetTwice(g, c, r, Cell(glyph, Underlined), Cell(glyph, Clipped));
    if glyph == 0 {
      ClippedBlank(now, k, Set(g, c, r, Cell(0, Clipped)), c, r);
      SetTwice(g, c, r, Cell(0, Clipped), BLANK);
    }
    SetSame(g, c, r);
  }

  /** Painting it in the foreground shows the cursor, at the price of the glyph's bottom row. */
  lemma CursorDrawn(was: seq<Byte>, now: seq<Byte>, k: Kit, t: Text)
    requires KitOk(k) && TextOk(k, t) && Shows(was, k, t.grid)
    requires Painted(was, now, k, LineRect(k, t.col, t.row), Flat(FG))
    ensures Shows(now, k, WithCursor(k, Settle(k, t)))
  {
    RowsPositive(k);
    hide KitOk, Shows, Painted;
    var c: nat, r: nat, g: Grid := t.col, t.row, t.grid;
    LinePainted(was, now, k, g, c, r, FG, Underlined);
    SetTwice(g, c, r, Wiped(g[r][c]), Cell(g[r][c].glyph, Underlined));
  }
}
