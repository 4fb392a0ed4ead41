/** When a framebuffer shows a text grid, and what painting and scrolling do to what it shows. */
module ConsoleScreen {
  import opened Bits
  import opened Strings
  import opened ConsolePixels

  type Grid = seq<seq<Cell>>

  predicate GridOk(k: Kit, g: Grid) {
    && |g| == k.rows
    && (forall r :: 0 <= r < k.rows ==> |g[r]| == k.cols)
    && (forall r, c :: 0 <= r < k.rows && 0 <= c < k.cols ==> g[r][c].glyph < k.count)
  }

  function CellX(k: Kit, c: nat, i: nat): nat {
    c * k.glyphW + i
  }

  function CellY(k: Kit, r: nat, j: nat): nat {
    r * k.glyphH + j
  }

  /** Pixel (i, j) within the text cell at column c and row r. */
  function CellPixel(fb: seq<Byte>, k: Kit, c: nat, r: nat, i: nat, j: nat): int {
    Pixel(fb, k, CellX(k, c, i), CellY(k, r, j))
  }

  ghost predicate CellShows(fb: seq<Byte>, k: Kit, cell: Cell, c: nat, r: nat) {
    forall i: nat, j: nat :: i < k.glyphW && j < k.glyphH ==> CellPixel(fb, k, c, r, i, j) == CellColour(k, cell, i, j)
  }

  predicate InMargin(k: Kit, x: nat, y: nat) {
    Visible(k, x, y) && (x >= k.cols * k.glyphW || y >= k.rows * k.glyphH)
  }

  /** What is right of the last column or below the last row is background. */
  ghost predicate MarginShows(fb: seq<Byte>, k: Kit) {
    forall x: nat, y: nat :: InMargin(k, x, y) ==> Pixel(fb, k, x, y) == BG
  }

  ghost predicate CellsShow(fb: seq<Byte>, k: Kit, g: Grid)
    requires GridOk(k, g)
  {
    forall c: nat, r: nat :: c < k.cols && r < k.rows ==> CellShows(fb, k, g[r][c], c, r)
  }

  ghost predicate Shows(fb: seq<Byte>, k: Kit, g: Grid) {
    k.height * k.pitch <= |fb| && GridOk(k, g) && MarginShows(fb, k) && CellsShow(fb, k, g)
  }

  // ---- where cells are ----------------------------------------------------------------------

  lemma CellBound(n: nat, size: nat, c: nat, i: nat)
    requires c < n && i < size
    ensures c * size + size <= n * size && c * size + i < n * size
  {
    MulAtLeast(n - c, size);
    assert (n - c) * size == n * size - c * size;
  }

  lemma CellInside(k: Kit, c: nat, r: nat, i: nat, j: nat)
    requires KitOk(k) && c < k.cols && r < k.rows && i < k.glyphW && j < k.glyphH
    ensures Visible(k, CellX(k, c, i), CellY(k, r, j)) && !InMargin(k, CellX(k, c, i), CellY(k, r, j))
    ensures c * k.glyphW + k.glyphW <= k.cols * k.glyphW && r * k.glyphH + k.glyphH <= k.rows * k.glyphH
  {
    CellBound(k.cols, k.glyphW, c, i);
    CellBound(k.rows, k.glyphH, r, j);
  }

  lemma SameCell(size: nat, c: nat, i: nat, d: nat)
    requires i < size && d * size <= c * size + i < d * size + size
    ensures c == d
  {
    if c < d { CellBound(d, size, c, i); }
    if d < c { CellBound(c, size, d, i); }
  }

  function CellRect(k: Kit, c: nat, r: nat): Rect {
    Rect(c * k.glyphW, c * k.glyphW + k.glyphW, r * k.glyphH, r * k.glyphH + k.glyphH)
  }

  /** The bottom pixel row of a cell. */
  function LineRect(k: Kit, c: nat, r: nat): Rect
    requires k.glyphH > 0
  {
    Rect(c * k.glyphW, c * k.glyphW + k.glyphW, r * k.glyphH + (k.glyphH - 1), r * k.glyphH + k.glyphH)
  }

  /** Pixels of other cells are outside the cell's rectangle. */
  lemma OtherCell(k: Kit, c: nat, r: nat, i: nat, j: nat, c0: nat, r0: nat)
    requires i < k.glyphW && j < k.glyphH && (c, r) != (c0, r0)
    ensures !InRect(CellRect(k, c0, r0), CellX(k, c, i), CellY(k, r, j))
  {
    if InRect(CellRect(k, c0, r0), CellX(k, c, i), CellY(k, r, j)) {
      SameCell(k.glyphW, c, i, c0);
      SameCell(k.glyphH, r, j, r0);
    }
  }

  // ---- one cell changes -----------------------------------------------------------------------

  function Set(g: Grid, c: nat, r: nat, cell: Cell): Grid
    requires r < |g| && c < |g[r]|
  {
    g[r := g[r][c := cell]]
  }

  lemma SetOk(k: Kit, g: Grid, c: nat, r: nat, cell: Cell)
    requires GridOk(k, g) && c < k.cols && r < k.rows && cell.glyph < k.count
    ensures GridOk(k, Set(g, c, r, cell))
  {
  }

  predicate Within(r: Rect, s: Rect) {
    s.x0 <= r.x0 && r.x1 <= s.x1 && s.y0 <= r.y0 && r.y1 <= s.y1
  }

  lemma PixelIs(was: seq<Byte>, fb: seq<Byte>, k: Kit, rect: Rect, p: Paint, x: nat, y: nat)
    requires Painted(was, fb, k, rect, p) && Visible(k, x, y)
    ensures Pixel(fb, k, x, y) == if InRect(rect, x, y) then PaintAt(k, p, x, y) else Pixel(was, k, x, y)
  {
    hide Pixel, PaintAt;
  }

  lemma OtherPixel(k: Kit, rect: Rect, c: nat, r: nat, i: nat, j: nat, c0: nat, r0: nat)
    requires KitOk(k) && Within(rect, CellRect(k, c0, r0)) && i < k.glyphW && j < k.glyphH
    requires c < k.cols && r < k.rows && (c, r) != (c0, r0)
    ensures Visible(k, CellX(k, c, i), CellY(k, r, j)) && !InRect(rect, CellX(k, c, i), CellY(k, r, j))
  {
    hide KitOk, CellRect;
    CellInside(k, c, r, i, j);
    OtherCell(k, c, r, i, j, c0, r0);
  }

  lemma OtherCellKept(was: seq<Byte>, fb: seq<Byte>, k: Kit, rect: Rect, p: Paint, c0: nat, r0: nat,
                      cell: Cell, c: nat, r: nat)
    requires KitOk(k) && Painted(was, fb, k, rect, p) && Within(rect, CellRect(k, c0, r0))
    requires c < k.cols && r < k.rows && (c, r) != (c0, r0) && CellShows(was, k, cell, c, r)
    ensures CellShows(fb, k, cell, c, r)
  {
    hide KitOk, Pixel, CellColour, PaintAt, Painted, Within, InRect, Visible;
    forall i: nat, j: nat | i < k.glyphW && j < k.glyphH
      ensures CellPixel(fb, k, c, r, i, j) == CellColour(k, cell, i, j)
    {
      OtherPixel(k, rect, c, r, i, j, c0, r0);
      PixelIs(was, fb, k, rect, p, CellX(k, c, i), CellY(k, r, j));
      assert CellPixel(was, k, c, r, i, j) == CellColour(k, cell, i, j);
    }
  }

  lemma MarginKept(was: seq<Byte>, fb: seq<Byte>, k: Kit, rect: Rect, p: Paint, c0: nat, r0: nat)
    requires KitOk(k) && Painted(was, fb, k, rect, p) && Within(rect, CellRect(k, c0, r0))
    requires c0 < k.cols && r0 < k.rows && MarginShows(was, k)
    ensures MarginShows(fb, k)
  {
    CellInside(k, c0, r0, 0, 0);
    hide KitOk, Pixel, PaintAt;
  }

  /** Painting inside one cell changes what the grid shows there and nowhere else. */
  lemma {:induction false} CellPainted(was: seq<Byte>, fb: seq<Byte>, k: Kit, g: Grid, rect: Rect, p: Paint,
                                       c0: nat, r0: nat, cell: Cell)
    requires KitOk(k) && Shows(was, k, g) && Painted(was, fb, k, rect, p) && Within(rect, CellRect(k, c0, r0))
    requires c0 < k.cols && r0 < k.rows && cell.glyph < k.count && CellShows(fb, k, cell, c0, r0)
    ensures Shows(fb, k, Set(g, c0, r0, cell))
  {
    assert |fb| == |was|;
    hide KitOk, CellShows, Painted, MarginShows, Within, CellRect;
    SetOk(k, g, c0, r0, cell);
    MarginKept(was, fb, k, rect, p, c0, r0);
    var h := Set(g, c0, r0, cell);
    forall c: nat, r: nat | c < k.cols && r < k.rows ensures CellShows(fb, k, h[r][c], c, r) {
      if (c, r) != (c0, r0) {
        assert h[r][c] == g[r][c];
        OtherCellKept(was, fb, k, rect, p, c0, r0, g[r][c], c, r);
      }
    }
  }

  /** Stamping a glyph over a cell leaves exactly that glyph there. */
  lemma {:induction false} Stamped(was: seq<Byte>, fb: seq<Byte>, k: Kit, g: Grid, c: nat, r: nat, ch: nat)
    requires KitOk(k) && Shows(was, k, g) && c < k.cols && r < k.rows && ch < k.count
    requires Painted(was, fb, k, CellRect(k, c, r), Stamp(ch, c * k.glyphW, r * k.glyphH))
    ensures Shows(fb, k, Set(g, c, r, Cell(ch, Plain)))
  {
    forall i: nat, j: nat | i < k.glyphW && j < k.glyphH
      ensures CellPixel(fb, k, c, r, i, j) == CellColour(k, Cell(ch, Plain), i, j)
    {
      hide KitOk, Pixel, GlyphBit, Shows;
      CellInside(k, c, r, i, j);
    }
    hide KitOk, Pixel, GlyphBit, Shows, Painted;
    CellPainted(was, fb, k, g, CellRect(k, c, r), Stamp(ch, c * k.glyphW, r * k.glyphH), c, r, Cell(ch, Plain));
  }

  lemma LineInCell(k: Kit, c: nat, r: nat)
    requires k.glyphH > 0
    ensures Within(LineRect(k, c, r), CellRect(k, c, r))
  {
  }

  lemma LinePixels(was: seq<Byte>, fb: seq<Byte>, k: Kit, cell: Cell, c: nat, r: nat, colour: nat, look: Look)
    requires KitOk(k) && c < k.cols && r < k.rows && CellShows(was, k, cell, c, r)
    requires Painted(was, fb, k, LineRect(k, c, r), Flat(colour))
    requires (look == Underlined && colour == FG) || (look == Clipped && colour == BG)
    ensures CellShows(fb, k, Cell(cell.glyph, look), c, r)
  {
    forall i: nat, j: nat | i < k.glyphW && j < k.glyphH
      ensures CellPixel(fb, k, c, r, i, j) == CellColour(k, Cell(cell.glyph, look), i, j)
    {
      hide KitOk, Pixel, GlyphBit;
      CellInside(k, c, r, i, j);
      assert CellPixel(was, k, c, r, i, j) == CellColour(k, cell, i, j);
    }
  }

  /** Painting the bottom row of a cell underlines its glyph or clips it. */
  lemma {:induction false} LinePainted(was: seq<Byte>, fb: seq<Byte>, k: Kit, g: Grid, c: nat, r: nat,
                                       colour: nat, look: Look)
    requires KitOk(k) && Shows(was, k, g) && c < k.cols && r < k.rows
    requires Painted(was, fb, k, LineRect(k, c, r), Flat(colour))
    requires (look == Underlined && colour == FG) || (look == Clipped && colour == BG)
    ensures Shows(fb, k, Set(g, c, r, Cell(g[r][c].glyph, look)))
  {
    assert k.glyphH > 0;
    hide KitOk, CellShows, Painted, MarginShows, CellRect, LineRect, Within;
    LineInCell(k, c, r);
    LinePixels(was, fb, k, g[r][c], c, r, colour, look);
    CellPainted(was, fb, k, g, LineRect(k, c, r), Flat(colour), c, r, Cell(g[r][c].glyph, look));
  }

  /** A clipped blank is a blank. */
  lemma {:induction false} ClippedBlank(fb: seq<Byte>, k: Kit, g: Grid, c: nat, r: nat)
    requires KitOk(k) && Shows(fb, k, g) && c < k.cols && r < k.rows && g[r][c] == Cell(0, Clipped)
    ensures Shows(fb, k, Set(g, c, r, BLANK))
  {
    assert CellShows(fb, k, BLANK, c, r) by {
      forall i: nat, j: nat | i < k.glyphW && j < k.glyphH
        ensures CellPixel(fb, k, c, r, i, j) == CellColour(k, BLANK, i, j)
      {
        assert GlyphBit(k, 0, i, j) == 0;
        assert CellPixel(fb, k, c, r, i, j) == CellColour(k, Cell(0, Clipped), i, j);
      }
    }
    hide KitOk, CellShows, MarginShows;
    var h := Set(g, c, r, BLANK);
    forall d: nat, s: nat | d < k.cols && s < k.rows ensures CellShows(fb, k, h[s][d], d, s) {
      if (d, s) != (c, r) { assert h[s][d] == g[s][d]; }
    }
  }

  // ---- the whole screen changes ---------------------------------------------------------------

  function BlankRow(k: Kit): seq<Cell> {
    seq(k.cols, _ => BLANK)
  }

  function BlankGrid(k: Kit): Grid {
    seq(k.rows, _ => BlankRow(k))
  }

  /** Painting everything in the background colour shows a blank grid, whatever was there. */
  lemma {:induction false} Cleared(was: seq<Byte>, fb: seq<Byte>, k: Kit)
    requires KitOk(k) && k.height * k.pitch <= |was|
    requires Painted(was, fb, k, Rect(0, k.width, 0, k.height), Flat(BG))
    ensures Shows(fb, k, BlankGrid(k))
  {
    var g := BlankGrid(k);
    assert GridOk(k, g) && MarginShows(fb, k) by { hide Pixel; }
    forall c: nat, r: nat | c < k.cols && r < k.rows ensures CellShows(fb, k, g[r][c], c, r) {
      BlankShows(was, fb, k, Rect(0, k.width, 0, k.height), c, r);
    }
  }

  lemma BandPixel(was: seq<Byte>, fb: seq<Byte>, k: Kit, rect: Rect, x: nat, y: nat)
    requires Painted(was, fb, k, rect, Flat(BG)) && Visible(k, x, y)
    requires rect.x0 == 0 && rect.x1 == k.width && rect.y0 <= y && rect.y1 == k.height
    ensures Pixel(fb, k, x, y) == BG
  {
    hide Pixel;
  }

  lemma BlankShows(was: seq<Byte>, fb: seq<Byte>, k: Kit, rect: Rect, c: nat, r: nat)
    requires KitOk(k) && Painted(was, fb, k, rect, Flat(BG)) && c < k.cols && r < k.rows
    requires rect.x0 == 0 && rect.x1 == k.width && rect.y0 <= r * k.glyphH && rect.y1 == k.height
    ensures CellShows(fb, k, BLANK, c, r)
  {
    hide KitOk, Pixel, CellColour, Painted, PaintAt, Visible, InMargin;
    forall i: nat, j: nat | i < k.glyphW && j < k.glyphH
      ensures CellPixel(fb, k, c, r, i, j) == CellColour(k, BLANK, i, j)
    {
      BlankColour(k, i, j);
      CellInside(k, c, r, i, j);
      BandPixel(was, fb, k, rect, CellX(k, c, i), CellY(k, r, j));
    }
  }

  lemma BlankColour(k: Kit, i: nat, j: nat)
    requires KitOk(k) && i < k.glyphW && j < k.glyphH
    ensures CellColour(k, BLANK, i, j) == BG
  {
    assert GlyphBit(k, 0, i, j) == 0;
  }

  // ---- scrolling -------------------------------------------------------------------------------

  /** Bytes in one text row, and in all scanlines but those of one text row. */
  function RowBytes(k: Kit): nat {
    k.glyphH * k.pitch
  }

  function MoveBytes(k: Kit): nat
    requires k.glyphH <= k.height
  {
    (k.height - k.glyphH) * k.pitch
  }

  /** A framebuffer with its picture moved up by one text row. */
  function MovedUp(fb: seq<Byte>, k: Kit): seq<Byte>
    requires k.glyphH <= k.height && RowBytes(k) + MoveBytes(k) <= |fb|
  {
    Moved(fb, 0, RowBytes(k), MoveBytes(k))
  }

  lemma MoveFits(k: Kit)
    requires KitOk(k)
    ensures k.glyphH <= k.height && RowBytes(k) + MoveBytes(k) == k.height * k.pitch
  {
    MulAtLeast(k.rows, k.glyphH);
    Distribute(k.glyphH, k.height - k.glyphH, k.pitch);
  }

  /** What the move does to a visible pixel, for any pitch. */
  lemma {:induction false} MovedPixel(fb: seq<Byte>, k: Kit, x: nat, y: nat)
    requires KitOk(k) && k.height * k.pitch <= |fb| && Visible(k, x, y) && y + k.glyphH < k.height
    requires k.glyphH <= k.height && RowBytes(k) + MoveBytes(k) <= |fb|
    ensures Pixel(MovedUp(fb, k), k, x, y) == Pixel(fb, k, x, y + k.glyphH)
  {
    assert 4 * x + 4 <= k.pitch;
    hide KitOk;
    MoveOffsets(k.pitch, x, y, k.glyphH, k.height);
  }

  lemma Distribute(a: int, b: int, p: int)
    ensures (a + b) * p == a * p + b * p
  {
  }

  lemma MoveOffsets(p: nat, x: nat, y: nat, h: nat, height: nat)
    requires 4 * x + 4 <= p && y + h < height
    ensures y * p + 4 * x + 4 <= (height - h) * p
    ensures (y + h) * p + 4 * x == h * p + (y * p + 4 * x)
    ensures (y + h) * p + 4 * x + 4 <= height * p
  {
    RowsApart(p, x, y, height - h);
    RowsApart(p, x, y + h, height);
    Distribute(y, h, p);
  }

  /** What scrolling leaves: every row one higher, the last one blank. */
  function Scrolled(k: Kit, g: Grid): Grid
    requires g != []
  {
    g[1..] + [BlankRow(k)]
  }

  /** The rows from the last text row down, over the whole width. */
  function BottomRect(k: Kit): Rect
    requires k.rows > 0
  {
    Rect(0, k.width, (k.rows - 1) * k.glyphH, k.height)
  }

  lemma LastRow(k: Kit)
    requires KitOk(k)
    ensures (k.rows - 1) * k.glyphH + k.glyphH <= k.height < (k.rows - 1) * k.glyphH + 2 * k.glyphH
  {
    Distribute(k.rows - 1, 1, k.glyphH);
  }

  lemma RowAbove(k: Kit, r: nat, j: nat)
    requires KitOk(k) && r + 1 < k.rows && j < k.glyphH
    ensures CellY(k, r, j) < (k.rows - 1) * k.glyphH && CellY(k, r, j) + k.glyphH < k.height
    ensures CellY(k, r + 1, j) == CellY(k, r, j) + k.glyphH
  {
    CellBound(k.rows - 1, k.glyphH, r, j);
    Distribute(k.rows - 1, 1, k.glyphH);
    Distribute(r, 1, k.glyphH);
  }

  lemma {:induction false} RowRises(was: seq<Byte>, fb: seq<Byte>, k: Kit, cell: Cell, c: nat, r: nat)
    requires KitOk(k) && k.height * k.pitch <= |was| && c < k.cols && r + 1 < k.rows &&
      CellShows(was, k, cell, c, r + 1)
    requires k.glyphH <= k.height && RowBytes(k) + MoveBytes(k) <= |was|
    requires Painted(MovedUp(was, k), fb, k, BottomRect(k), Flat(BG))
    ensures CellShows(fb, k, cell, c, r)
  {
    hide KitOk, Pixel, CellColour, PaintAt, Painted, MovedUp, RowBytes, MoveBytes;
    forall i: nat, j: nat | i < k.glyphW && j < k.glyphH
      ensures CellPixel(fb, k, c, r, i, j) == CellColour(k, cell, i, j)
    {
      var x, y := CellX(k, c, i), CellY(k, r, j);
      CellInside(k, c, r, i, j);
      RowAbove(k, r, j);
      PixelIs(MovedUp(was, k), fb, k, BottomRect(k), Flat(BG), x, y);
      MovedPixel(was, k, x, y);
      assert CellPixel(was, k, c, r + 1, i, j) == CellColour(k, cell, i, j);
    }
  }

  lemma {:induction false} MarginRises(was: seq<Byte>, fb: seq<Byte>, k: Kit)
    requires KitOk(k) && k.height * k.pitch <= |was| && MarginShows(was, k)
    requires k.glyphH <= k.height && RowBytes(k) + MoveBytes(k) <= |was|
    requires Painted(MovedUp(was, k), fb, k, BottomRect(k), Flat(BG))
    ensures MarginShows(fb, k)
  {
    LastRow(k);
    hide KitOk, Pixel, PaintAt, Painted, MovedUp, RowBytes, MoveBytes;
    forall x: nat, y: nat | InMargin(k, x, y) ensures Pixel(fb, k, x, y) == BG {
      PixelIs(MovedUp(was, k), fb, k, BottomRect(k), Flat(BG), x, y);
      if y < (k.rows - 1) * k.glyphH {
        MovedPixel(was, k, x, y);
        assert InMargin(k, x, y + k.glyphH);
      } else {
        FlatIs(k, BG, x, y);
      }
    }
  }

  lemma FlatIs(k: Kit, c: nat, x: nat, y: nat)
    ensures PaintAt(k, Flat(c), x, y) == c
  {
  }

  /** One memmove and one blanked band shift the text by exactly one row, for any pitch and for any
      height, also one that is not a multiple of the glyph height. */
  lemma {:induction false} ScrollShows(was: seq<Byte>, fb: seq<Byte>, k: Kit, g: Grid)
    requires KitOk(k) && Shows(was, k, g)
    requires k.glyphH <= k.height && RowBytes(k) + MoveBytes(k) <= |was|
    requires Painted(MovedUp(was, k), fb, k, BottomRect(k), Flat(BG))
    ensures Shows(fb, k, Scrolled(k, g))
  {
    var h := Scrolled(k, g);
    assert k.rows > 0 && k.count > 0 && |fb| == |was|;
    LastRow(k);
    assert GridOk(k, h);
    MarginRises(was, fb, k);
    hide MarginShows, Pixel, CellShows, Painted, KitOk, MovedUp, RowBytes, MoveBytes;
    forall c: nat, r: nat | c < k.cols && r < k.rows ensures CellShows(fb, k, h[r][c], c, r) {
      if r + 1 < k.rows {
        assert h[r] == g[r + 1];
        RowRises(was, fb, k, g[r + 1][c], c, r);
      } else {
        assert h[r][c] == BLANK;
        BlankShows(MovedUp(was, k), fb, k, BottomRect(k), c, r);
      }
    }
  }

  // ---- every pixel ------------------------------------------------------------------------------

  function Quot(x: nat, size: nat): nat
    requires size > 0
  {
    x / size
  }

  function Rest(x: nat, size: nat): nat
    requires size > 0
  {
    x % size
  }

  /** The picture of a grid, given for every visible pixel. */
  function ColourAt(k: Kit, g: Grid, x: nat, y: nat): int
    requires KitOk(k) && GridOk(k, g)
  {
    var c, r := Quot(x, k.glyphW), Quot(y, k.glyphH);
    if c < k.cols && r < k.rows then CellColour(k, g[r][c], Rest(x, k.glyphW), Rest(y, k.glyphH)) else BG
  }

  /** A framebuffer that shows a grid has that grid's picture, pixel for pixel. */
  lemma {:induction false} PictureOf(fb: seq<Byte>, k: Kit, g: Grid, x: nat, y: nat)
    requires KitOk(k) && Shows(fb, k, g) && Visible(k, x, y)
    ensures Pixel(fb, k, x, y) == ColourAt(k, g, x, y)
  {
    assert k.glyphW > 0 && k.glyphH > 0;
    var c, r, i, j := Quot(x, k.glyphW), Quot(y, k.glyphH), Rest(x, k.glyphW), Rest(y, k.glyphH);
    hide KitOk, Pixel, CellColour, Quot, Rest;
    Quotient(x, k.glyphW, k.cols);
    Quotient(y, k.glyphH, k.rows);
    if c < k.cols && r < k.rows {
      assert CellShows(fb, k, g[r][c], c, r);
      assert CellPixel(fb, k, c, r, i, j) == CellColour(k, g[r][c], i, j);
    } else {
      assert InMargin(k, x, y);
    }
  }

  /** Two colours: pixel (i, j) of the text cell at column c and row r is in the foreground just when the
      glyph is set there, except in the bottom row of a cell the cursor is or was on. */
  lemma {:induction false} TwoColours(fb: seq<Byte>, k: Kit, g: Grid, c: nat, r: nat, i: nat, j: nat)
    requires Shows(fb, k, g) && c < k.cols && r < k.rows && i < k.glyphW && j < k.glyphH
    ensures Pixel(fb, k, c * k.glyphW + i, r * k.glyphH + j) ==
      if (if j + 1 == k.glyphH && g[r][c].look != Plain then g[r][c].look.Underlined?
          else GlyphBit(k, g[r][c].glyph, i, j) == 1)
      then 0x00c8f0c8 else 0x00060f0a
  {
    hide Pixel, GlyphBit;
    assert CellShows(fb, k, g[r][c], c, r);
    assert CellPixel(fb, k, c, r, i, j) == CellColour(k, g[r][c], i, j);
  }

  lemma Quotient(x: nat, size: nat, n: nat)
    requires size > 0
    ensures x == Quot(x, size) * size + Rest(x, size) && Rest(x, size) < size
    ensures Quot(x, size) < n <==> x < n * size
  {
    var q := Quot(x, size);
    assert x == q * size + Rest(x, size);
    hide Quot, Rest;
    if q < n {
      CellBound(n, size, q, x - q * size);
    } else {
      MulAtLeast(q - n + 1, size);
      assert (q - n + 1) * size == q * size - n * size + size;
    }
  }
}
