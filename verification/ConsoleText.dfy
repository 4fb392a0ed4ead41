/** The terminal as a text grid with a cursor: what each character does, and what strings do. */
module ConsoleText {
  import opened Bits
  import opened Strings
  import opened ConsolePixels
  import opened ConsoleScreen

  const BACKSPACE: Byte := 8
  const TAB: Byte := 9
  const NEWLINE: Byte := 10
  const RETURN: Byte := 13

  /** The grid without the cursor's underline, and where the cursor is. */
  datatype Text = Text(grid: Grid, col: nat, row: nat)

  predicate TextOk(k: Kit, t: Text) {
    k.count > 0 && GridOk(k, t.grid) && t.col < k.cols && t.row < k.rows
  }

  /** Once a cursor has stood on a cell its bottom pixel row is gone; a blank has nothing to lose there. */
  function Wiped(cell: Cell): Cell {
    if cell.glyph == 0 then BLANK else Cell(cell.glyph, Clipped)
  }

  function Settle(k: Kit, t: Text): (r: Text)
    requires TextOk(k, t)
    ensures TextOk(k, r) && r.col == t.col && r.row == t.row
  {
    t.(grid := Set(t.grid, t.col, t.row, Wiped(t.grid[t.row][t.col])))
  }

  predicate Settled(k: Kit, t: Text) {
    TextOk(k, t) && t.grid[t.row][t.col] == Wiped(t.grid[t.row][t.col])
  }

  /** What the screen shows: the grid, with the cell under the cursor underlined. */
  function WithCursor(k: Kit, t: Text): Grid
    requires TextOk(k, t)
  {
    Set(t.grid, t.col, t.row, Cell(t.grid[t.row][t.col].glyph, Underlined))
  }

  function Start(k: Kit): Text {
    Text(BlankGrid(k), 0, 0)
  }

  function Known(k: Kit, ch: nat): nat {
    if ch >= k.count then 0 else ch
  }

  function DrawAt(k: Kit, t: Text, ch: nat): (r: Text)
    requires TextOk(k, t)
    ensures TextOk(k, r)
  {
    t.(grid := Set(t.grid, t.col, t.row, Cell(Known(k, ch), Plain)))
  }

  /** To the start of the next line; off the bottom, everything moves up instead. */
  function NewLine(k: Kit, t: Text): (r: Text)
    requires TextOk(k, t)
    ensures TextOk(k, r)
  {
    if t.row + 1 >= k.rows then Text(Scrolled(k, t.grid), 0, k.rows - 1) else Text(t.grid, 0, t.row + 1)
  }

  /** One cell right, or to a new line from the last column. */
  function Advance(k: Kit, t: Text): (r: Text)
    requires TextOk(k, t)
    ensures TextOk(k, r)
  {
    if t.col + 1 >= k.cols then NewLine(k, t) else t.(col := t.col + 1)
  }

  function StepBack(k: Kit, t: Text): (r: Text)
    requires TextOk(k, t)
    ensures TextOk(k, r)
  {
    if t.col > 0 then t.(col := t.col - 1) else if t.row > 0 then t.(col := k.cols - 1, row := t.row - 1) else t
  }

  /** Blank cells up to a column, stopping at a line end. */
  function BlankTo(k: Kit, t: Text, target: nat): (r: Text)
    requires TextOk(k, t)
    ensures TextOk(k, r)
    decreases target - t.col
  {
    if t.col >= target then t
    else if t.col + 1 >= k.cols then NewLine(k, DrawAt(k, t, 0))
    else BlankTo(k, Advance(k, DrawAt(k, t, 0)), target)
  }

  function NextStop(col: nat): nat {
    col - col % 8 + 8
  }

  function Act(k: Kit, t: Text, c: Byte): (r: Text)
    requires TextOk(k, t)
    ensures TextOk(k, r)
  {
    if c == NEWLINE then NewLine(k, t)
    else if c == RETURN then t.(col := 0)
    else if c == BACKSPACE then DrawAt(k, StepBack(k, t), 0)
    else if c == TAB then BlankTo(k, t, NextStop(t.col))
    else if c >= 0x20 then Advance(k, DrawAt(k, t, c))
    else t
  }

  function Put(k: Kit, t: Text, c: Byte): (r: Text)
    requires TextOk(k, t)
    ensures Settled(k, r)
  {
    Settle(k, Act(k, t, c))
  }

  function PutAll(k: Kit, t: Text, s: seq<Byte>): (r: Text)
    requires TextOk(k, t)
    ensures TextOk(k, r)
  {
    if s == [] then t else Put(k, PutAll(k, t, s[..|s| - 1]), s[|s| - 1])
  }

  // ---- what each character does, cell by cell ------------------------------------------------------

  /** n is at the start of the line after `row` on grid g; past the last line every row is one higher and
      the last one is blank. */
  ghost predicate NextLine(k: Kit, g: Grid, row: nat, n: Text)
    requires GridOk(k, g) && row < k.rows
  {
    && GridOk(k, n.grid) && n.col == 0
    && if row + 1 < k.rows then n.row == row + 1 && n.grid == g
       else
         && n.row == row
         && (forall r, c :: 0 <= r < k.rows - 1 && 0 <= c < k.cols ==> n.grid[r][c] == g[r + 1][c])
         && (forall c :: 0 <= c < k.cols ==> n.grid[row][c] == Cell(0, Plain))
  }

  /** h is g with the cells [from, to) of a row blanked. */
  ghost predicate Blanked(k: Kit, g: Grid, h: Grid, row: nat, from: nat, to: nat)
    requires GridOk(k, g)
  {
    && GridOk(k, h)
    && forall r, c :: 0 <= r < k.rows && 0 <= c < k.cols ==>
         h[r][c] == if r == row && from <= c < to then Cell(0, Plain) else g[r][c]
  }

  lemma NewLineSays(k: Kit, t: Text)
    requires TextOk(k, t)
    ensures NextLine(k, t.grid, t.row, NewLine(k, t))
  {
  }

  /** The next tab stop: the least multiple of 8 beyond the column. */
  lemma NextStopMeans(col: nat)
    ensures NextStop(col) % 8 == 0 && col < NextStop(col) <= col + 8
  {
  }

  /** The tab wipes every cell it passes, whatever is there, up to the stop or the end of the line. */
  lemma {:induction false} TabBlanks(k: Kit, t: Text, target: nat) returns (h: Grid)
    requires TextOk(k, t) && target > t.col
    ensures Blanked(k, t.grid, h, t.row, t.col, target)
    ensures var r := BlankTo(k, t, target);
      if target < k.cols then r == Text(h, target, t.row) else NextLine(k, h, t.row, r)
    decreases target - t.col
  {
    var d := DrawAt(k, t, 0);
    assert Blanked(k, t.grid, d.grid, t.row, t.col, t.col + 1);
    h := d.grid;
    if t.col + 1 >= k.cols {
      NewLineSays(k, d);
    } else if t.col + 1 < target {
      assert BlankTo(k, t, target) == BlankTo(k, Advance(k, d), target);
      hide BlankTo;
      h := TabBlanks(k, Advance(k, d), target);
    }
  }

  /** A printable character puts its glyph, or the blank one the font has instead, in the cell of the
      cursor and in no other, and moves on by one. */
  lemma {:induction false} PrintSays(k: Kit, t: Text, c: Byte)
    requires TextOk(k, t) && c >= 32
    ensures var g := t.grid[t.row := t.grid[t.row][t.col := Cell(if c < k.count then c else 0, Plain)]];
      && GridOk(k, g)
      && if t.col + 1 < k.cols then Act(k, t, c) == Text(g, t.col + 1, t.row) else NextLine(k, g, t.row, Act(k, t, c))
  {
    NewLineSays(k, DrawAt(k, t, c));
  }

  /** Backspace goes back by one cell, across the start of a line but not of the screen, and wipes it. */
  lemma {:induction false} BackspaceSays(k: Kit, t: Text)
    requires TextOk(k, t)
    ensures var r := Act(k, t, 8);
      && r.row * k.cols + r.col == (if t.col == 0 && t.row == 0 then 0 else t.row * k.cols + t.col - 1)
      && Blanked(k, t.grid, r.grid, r.row, r.col, r.col + 1)
  {
    if t.col == 0 && t.row > 0 { assert (t.row - 1) * k.cols + k.cols == t.row * k.cols; }
  }

  /** Newline, carriage return and tab, by their codes; all other control characters do nothing. */
  lemma {:induction false} ControlSays(k: Kit, t: Text, c: Byte)
    requires TextOk(k, t) && c < 32 && c != 8
    ensures c == 10 ==> NextLine(k, t.grid, t.row, Act(k, t, c))
    ensures c == 13 ==> Act(k, t, c) == Text(t.grid, 0, t.row)
    ensures c == 9 ==>
      exists h: Grid, stop: nat :: stop % 8 == 0 && t.col < stop <= t.col + 8
        && Blanked(k, t.grid, h, t.row, t.col, stop)
        && if stop < k.cols then Act(k, t, c) == Text(h, stop, t.row) else NextLine(k, h, t.row, Act(k, t, c))
    ensures c != 9 && c != 10 && c != 13 ==> Act(k, t, c) == t
  {
    NewLineSays(k, t);
    hide NewLine, BlankTo, NextStop;
    NextStopMeans(t.col);
    var h := TabBlanks(k, t, NextStop(t.col));
  }

  /** The cursor then costs the glyph it stands on its bottom row, and no other cell anything. */
  lemma {:induction false} PutSays(k: Kit, t: Text, c: Byte)
    requires TextOk(k, t)
    ensures var a, r := Act(k, t, c), Put(k, t, c);
      && r.col == a.col && r.row == a.row
      && forall y, x :: 0 <= y < k.rows && 0 <= x < k.cols ==>
           r.grid[y][x] == if (x, y) != (a.col, a.row) then a.grid[y][x]
                           else if a.grid[y][x].glyph == 0 then Cell(0, Plain) else Cell(a.grid[y][x].glyph, Clipped)
  {
    hide Act;
  }

  /** So what is printed stays: the cell where the cursor was shows the character, unless it has scrolled. */
  lemma {:induction false} PrintedStays(k: Kit, t: Text, c: Byte)
    requires TextOk(k, t) && c >= 32 && (t.col + 1 < k.cols || t.row + 1 < k.rows)
    ensures Put(k, t, c).grid[t.row][t.col] == Cell(if c < k.count then c else 0, Plain)
  {
    hide Act, Put;
    PrintSays(k, t, c);
    PutSays(k, t, c);
  }

  /** What is seen: the glyphs of the text in the foreground, and a line in it along the bottom of the cell the
      cursor is on, whatever is there. */
  lemma {:induction false} CursorIsSeen(fb: seq<Byte>, k: Kit, t: Text, c: nat, r: nat, i: nat, j: nat)
    requires TextOk(k, t) && Shows(fb, k, WithCursor(k, t))
    requires c < k.cols && r < k.rows && i < k.glyphW && j < k.glyphH
    ensures Pixel(fb, k, c * k.glyphW + i, r * k.glyphH + j) ==
      if (if c == t.col && r == t.row && j + 1 == k.glyphH then true
          else if (c, r) != (t.col, t.row) && j + 1 == k.glyphH && t.grid[r][c].look != Plain
          then t.grid[r][c].look.Underlined?
          else GlyphBit(k, t.grid[r][c].glyph, i, j) == 1)
      then 0x00c8f0c8 else 0x00060f0a
  {
    hide Pixel, GlyphBit, Shows;
    TwoColours(fb, k, WithCursor(k, t), c, r, i, j);
  }

  // ---- the cursor never eats a glyph -----------------------------------------------------------

  predicate AtOrAfter(t: Text, c: nat, r: nat) {
    r > t.row || (r == t.row && c >= t.col)
  }

  /** Everything from the cursor on is blank, and no glyph anywhere has lost pixels to the cursor. */
  predicate Clean(k: Kit, t: Text) {
    && TextOk(k, t)
    && forall r, c :: 0 <= r < k.rows && 0 <= c < k.cols ==>
         t.grid[r][c].look == Plain && (AtOrAfter(t, c, r) ==> t.grid[r][c] == BLANK)
  }

  lemma SetSame(g: Grid, c: nat, r: nat)
    requires r < |g| && c < |g[r]|
    ensures Set(g, c, r, g[r][c]) == g
  {
    assert g[r][c := g[r][c]] == g[r];
    assert g[r := g[r]] == g;
  }

  lemma NewLineKeepsClean(k: Kit, t: Text)
    requires TextOk(k, t)
    requires forall r, c :: 0 <= r < k.rows && 0 <= c < k.cols ==>
      t.grid[r][c].look == Plain && (r > t.row ==> t.grid[r][c] == BLANK)
    ensures Clean(k, NewLine(k, t))
  {
    var n := NewLine(k, t);
    forall r, c | 0 <= r < k.rows && 0 <= c < k.cols
      ensures n.grid[r][c].look == Plain && (AtOrAfter(n, c, r) ==> n.grid[r][c] == BLANK)
    {
      assert t.row + 1 >= k.rows && r + 1 < k.rows ==> n.grid[r][c] == t.grid[r + 1][c];
    }
  }

  lemma {:induction false} BlankToKeepsClean(k: Kit, t: Text, target: nat)
    requires Clean(k, t)
    ensures Clean(k, BlankTo(k, t, target))
    decreases target - t.col
  {
    if t.col < target {
      SetSame(t.grid, t.col, t.row);
      if t.col + 1 >= k.cols {
        NewLineKeepsClean(k, t);
      } else {
        BlankToKeepsClean(k, t.(col := t.col + 1), target);
      }
    }
  }

  lemma AdvanceKeepsClean(k: Kit, t: Text, ch: nat)
    requires Clean(k, t)
    ensures Clean(k, Advance(k, DrawAt(k, t, ch)))
  {
    var d := DrawAt(k, t, ch);
    if t.col + 1 >= k.cols { NewLineKeepsClean(k, d); }
  }

  lemma BackKeepsClean(k: Kit, t: Text)
    requires Clean(k, t)
    ensures Clean(k, DrawAt(k, StepBack(k, t), 0))
  {
  }

  lemma SettleClean(k: Kit, t: Text)
    requires Clean(k, t)
    ensures Settle(k, t) == t
  {
    SetSame(t.grid, t.col, t.row);
  }

  /** Any character but a carriage return keeps the text clean, and the cursor takes nothing. */
  lemma {:induction false} PutKeepsClean(k: Kit, t: Text, c: Byte)
    requires Clean(k, t) && c != RETURN
    ensures Clean(k, Put(k, t, c)) && Put(k, t, c) == Act(k, t, c)
  {
    hide BlankTo, NewLine, DrawAt;
    if c == NEWLINE {
      NewLineKeepsClean(k, t);
    } else if c == BACKSPACE {
      BackKeepsClean(k, t);
    } else if c == TAB {
      BlankToKeepsClean(k, t, NextStop(t.col));
    } else if c >= 0x20 {
      AdvanceKeepsClean(k, t, c);
    }
    SettleClean(k, Act(k, t, c));
  }

  /** So does every string without one, from a cleared screen or from any clean text. */
  lemma {:induction false} StringKeepsClean(k: Kit, t: Text, s: seq<Byte>)
    requires Clean(k, t) && RETURN !in s
    ensures Clean(k, PutAll(k, t, s))
  {
    if s != [] {
      StringKeepsClean(k, t, s[..|s| - 1]);
      PutKeepsClean(k, PutAll(k, t, s[..|s| - 1]), s[|s| - 1]);
    }
  }

  lemma StartIsClean(k: Kit)
    requires KitOk(k)
    ensures Clean(k, Start(k)) && Settled(k, Start(k))
  {
  }

  /** A carriage return puts the cursor back over what the line holds. It keeps the text clean just when
      that line is still empty; otherwise it leaves non-blank cells under or after the cursor. */
  lemma {:induction false} ReturnIsCleanIff(k: Kit, t: Text)
    requires Clean(k, t)
    ensures Clean(k, Put(k, t, RETURN)) <==> forall c :: 0 <= c < t.col ==> t.grid[t.row][c] == BLANK
  {
    var n := Put(k, t, RETURN);
    if forall c :: 0 <= c < t.col ==> t.grid[t.row][c] == BLANK {
      SettleClean(k, t.(col := 0));
    } else {
      var c :| 0 <= c < t.col && t.grid[t.row][c] != BLANK;
      assert AtOrAfter(n, c, t.row);
      assert c > 0 ==> n.grid[t.row][c] == t.grid[t.row][c];
      assert c == 0 ==> n.grid[t.row][c] == Wiped(t.grid[t.row][c]);
    }
  }

  /** 'A' and a carriage return: the cursor stands on the glyph and takes its bottom pixel row. */
  lemma ReturnClipsGlyph(k: Kit)
    requires KitOk(k) && k.cols > 1 && k.count > 65
    ensures PutAll(k, Start(k), [65, RETURN]).grid[0][0] == Cell(65, Clipped)
  {
    var t := Start(k);
    assert [65, RETURN][..1] == [65] && [65][..0] == [];
    var u := PutAll(k, t, [65]);
    assert u == Put(k, PutAll(k, t, []), 65);
    assert u.grid[0][0] == Cell(65, Plain) && u.col == 1 && u.row == 0;
    assert PutAll(k, t, [65, RETURN]) == Put(k, u, RETURN);
  }

  // ---- what clean is for ------------------------------------------------------------------------

  /** Place of a cell in reading order. */
  function Place(k: Kit, c: nat, r: nat): nat {
    r * k.cols + c
  }

  lemma PlaceOrder(k: Kit, c: nat, r: nat, v: nat, u: nat)
    requires c < k.cols && v < k.cols
    ensures Place(k, c, r) < Place(k, v, u) <==> r < u || (r == u && c < v)
    ensures Place(k, c, r) == Place(k, v, u) <==> r == u && c == v
  {
    if r < u { MulAtLeast(u - r, k.cols); Difference(u, r, k.cols); }
    if u < r { MulAtLeast(r - u, k.cols); Difference(r, u, k.cols); }
  }

  lemma Difference(x: nat, y: nat, p: nat)
    ensures (x - y) * p == x * p - y * p
  {
  }

  /** No glyph on the screen has lost pixels. */
  predicate Whole(k: Kit, t: Text)
    requires TextOk(k, t)
  {
    forall r, c :: 0 <= r < k.rows && 0 <= c < k.cols ==> t.grid[r][c].look == Plain
  }

  /** Whatever is written from here on, carriage returns aside, no glyph loses pixels to the cursor. */
  ghost predicate NeverEats(k: Kit, t: Text)
    requires TextOk(k, t)
  {
    forall s: seq<Byte> :: RETURN !in s ==> Whole(k, PutAll(k, t, s))
  }

  function Spaces(n: nat): (s: seq<Byte>)
    ensures |s| == n && RETURN !in s
  {
    seq(n, _ => 0x20)
  }

  /** The text t once the cursor has moved from place p on to the cell at (c, r) before the end of the
      screen: what lies further on is untouched, and the cell itself is as the cursor leaves it. */
  ghost predicate MovedTo(k: Kit, was: Text, t: Text, c: nat, r: nat)
    requires TextOk(k, was)
  {
    && TextOk(k, t) && t.col == c && t.row == r
    && t.grid[r][c] == Wiped(was.grid[r][c])
    && forall u, v :: 0 <= u < k.rows && 0 <= v < k.cols && Place(k, v, u) > Place(k, c, r) ==>
         t.grid[u][v] == was.grid[u][v]
  }

  /** One more character moves on by one cell. */
  lemma MoveOne(k: Kit, was: Text, t: Text, c: nat, r: nat)
    requires TextOk(k, was) && MovedTo(k, was, t, c, r) && (c + 1 < k.cols || r + 1 < k.rows)
    ensures MovedTo(k, was, Put(k, t, 0x20), if c + 1 < k.cols then c + 1 else 0, if c + 1 < k.cols then r else r + 1)
  {
    var n, c1, r1 := Put(k, t, 0x20), if c + 1 < k.cols then c + 1 else 0, if c + 1 < k.cols then r else r + 1;
    PlaceOrder(k, c, r, c1, r1);
    forall u, v | 0 <= u < k.rows && 0 <= v < k.cols && Place(k, v, u) > Place(k, c1, r1)
      ensures n.grid[u][v] == was.grid[u][v]
    {
      PlaceOrder(k, c1, r1, v, u);
    }
  }

  /** Blanks lead the cursor to any cell from its own on. */
  lemma {:induction false} SpacesReach(k: Kit, t: Text, c: nat, r: nat)
    requires Settled(k, t) && c < k.cols && r < k.rows && AtOrAfter(t, c, r)
    ensures exists s: seq<Byte> :: RETURN !in s && MovedTo(k, t, PutAll(k, t, s), c, r)
    decreases Place(k, c, r)
  {
    if (c, r) == (t.col, t.row) {
      assert PutAll(k, t, []) == t && MovedTo(k, t, t, c, r);
      assert RETURN !in [] && MovedTo(k, t, PutAll(k, t, []), c, r);
    } else {
      var c0, r0 := if c > 0 then c - 1 else k.cols - 1, if c > 0 then r else r - 1;
      PlaceOrder(k, c0, r0, c, r);
      hide Put, MovedTo, Place;
      SpacesReach(k, t, c0, r0);
      var s: seq<Byte> :| RETURN !in s && MovedTo(k, t, PutAll(k, t, s), c0, r0);
      MoveOne(k, t, PutAll(k, t, s), c0, r0);
      assert (s + [0x20])[..|s|] == s;
      assert RETURN !in s + [0x20] && MovedTo(k, t, PutAll(k, t, s + [0x20]), c, r);
    }
  }

  /** Clean is exactly the condition under which the cursor never eats a glyph: text is clean if and only
      if no string without a carriage return costs any glyph its bottom row. */
  lemma {:induction false} CleanIffNeverEats(k: Kit, t: Text)
    requires Settled(k, t)
    ensures Clean(k, t) <==> NeverEats(k, t)
  {
    hide Put, MovedTo;
    if Clean(k, t) {
      forall s: seq<Byte> | RETURN !in s ensures Whole(k, PutAll(k, t, s)) {
        StringKeepsClean(k, t, s);
      }
    }
    if NeverEats(k, t) {
      assert PutAll(k, t, []) == t && RETURN !in [];
      assert Whole(k, t);
      forall r, c | 0 <= r < k.rows && 0 <= c < k.cols && AtOrAfter(t, c, r) ensures t.grid[r][c] == BLANK {
        SpacesReach(k, t, c, r);
        var s: seq<Byte> :| RETURN !in s && MovedTo(k, t, PutAll(k, t, s), c, r);
        ReachedIsBlank(k, t, PutAll(k, t, s), c, r);
      }
    }
  }

  lemma ReachedIsBlank(k: Kit, was: Text, t: Text, c: nat, r: nat)
    requires TextOk(k, was) && c < k.cols && r < k.rows && MovedTo(k, was, t, c, r)
    requires Whole(k, t) && Whole(k, was)
    ensures was.grid[r][c] == BLANK
  {
    assert t.grid[r][c].look == Plain && was.grid[r][c].look == Plain;
  }

  /** So after a carriage return the cursor eats no glyph, now or later, just when the line was empty. */
  lemma {:induction false} ReturnEatsIff(k: Kit, t: Text)
    requires Clean(k, t)
    ensures NeverEats(k, Put(k, t, RETURN)) <==> forall c :: 0 <= c < t.col ==> t.grid[t.row][c] == BLANK
  {
    hide Clean, NeverEats;
    assert TextOk(k, t) by { CleanIsOk(k, t); }
    ReturnIsCleanIff(k, t);
    CleanIffNeverEats(k, Put(k, t, RETURN));
  }

  lemma CleanIsOk(k: Kit, t: Text)
    requires Clean(k, t)
    ensures TextOk(k, t)
  {
  }

  // ---- what strings do --------------------------------------------------------------------------

  /** On clean text the tab's loop of blanks comes to a jump: to the next multiple of 8, or to a new line
      when that stop is beyond the last column. */
  lemma {:induction false} TabJumps(k: Kit, t: Text, target: nat)
    requires Clean(k, t) && target > t.col
    ensures BlankTo(k, t, target) == if target < k.cols then t.(col := target) else NewLine(k, t)
    decreases target - t.col
  {
    hide NewLine;
    SetSame(t.grid, t.col, t.row);
    assert DrawAt(k, t, 0) == t;
    if t.col + 1 < k.cols && t.col + 1 < target {
      TabJumps(k, t.(col := t.col + 1), target);
      NewLineForgetsColumn(k, t, t.col + 1);
    }
  }

  lemma NewLineForgetsColumn(k: Kit, t: Text, c: nat)
    requires TextOk(k, t) && c < k.cols
    ensures NewLine(k, t.(col := c)) == NewLine(k, t)
  {
  }

  lemma PrintThenBack(k: Kit, t: Text, c: Byte)
    requires Clean(k, t) && c >= 0x20
    ensures Put(k, Put(k, t, c), BACKSPACE) == DrawAt(k, StepBack(k, Advance(k, DrawAt(k, t, c))), 0)
  {
    assert TextOk(k, t);
    hide BlankTo, NewLine, Clean;
    AdvanceKeepsClean(k, t, c);
    SettleClean(k, Advance(k, DrawAt(k, t, c)));
    BackKeepsClean(k, Put(k, t, c));
    SettleClean(k, DrawAt(k, StepBack(k, Put(k, t, c)), 0));
  }

  /** Off the end of the screen a printed character scrolls, and the way back does not. */
  lemma BackFromScroll(k: Kit, t: Text, c: Byte)
    requires Clean(k, t) && t.col + 1 == k.cols && t.row + 1 == k.rows
    ensures DrawAt(k, StepBack(k, Advance(k, DrawAt(k, t, c))), 0) == t <==> k.cols == 1 && k.rows == 1
  {
    var b := DrawAt(k, StepBack(k, Advance(k, DrawAt(k, t, c))), 0);
    if k.cols == 1 && k.rows == 1 {
      assert b.grid[0][0] == t.grid[0][0];
      assert b.grid[0] == t.grid[0];
      assert b.grid == t.grid;
    }
  }

  /** Backspace takes back a printable character, except at the very end of the screen, where printing
      has scrolled (unless the whole screen is a single cell). */
  lemma {:induction false} BackspaceUndoesIff(k: Kit, t: Text, c: Byte)
    requires Clean(k, t) && c >= 0x20
    ensures Put(k, Put(k, t, c), BACKSPACE) == t <==>
            t.col + 1 < k.cols || t.row + 1 < k.rows || (k.cols == 1 && k.rows == 1)
  {
    hide Put;
    PrintThenBack(k, t, c);
    if t.col + 1 < k.cols || t.row + 1 < k.rows {
      SetTwice(t.grid, t.col, t.row, Cell(Known(k, c), Plain), BLANK);
      SetSame(t.grid, t.col, t.row);
    } else {
      BackFromScroll(k, t, c);
    }
  }

  lemma SetTwice(g: Grid, c: nat, r: nat, x: Cell, y: Cell)
    requires r < |g| && c < |g[r]|
    ensures Set(Set(g, c, r, x), c, r, y) == Set(g, c, r, y)
  {
    assert g[r][c := x][c := y] == g[r][c := y];
  }
}
