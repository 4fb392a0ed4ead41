/** What strings leave on the screen: a window on a tape of glyphs, for every string without a carriage return. */
module ConsoleTape {
  import opened Bits
  import opened Strings
  import opened ConsolePixels
  import opened ConsoleScreen
  import opened ConsoleText

  /** All glyphs written so far, one cell each from left to right and line by line, the skipped cells of a
      newline or a tab as blanks; and how many lines have scrolled off. */
  datatype Reel = Reel(tape: seq<nat>, top: nat)

  /** The tape drawn out with blanks to n cells. */
  function Padded(tape: seq<nat>, n: nat): (p: seq<nat>)
    ensures |tape| <= n ==> |p| == n
  {
    tape + seq(if n > |tape| then n - |tape| else 0, _ => 0)
  }

  /** Lines scroll off when the cursor's would be below the screen. */
  function Rolled(k: Kit, tape: seq<nat>, top: nat): Reel
    requires k.cols > 0 && k.rows > 0
  {
    var line := Quot(|tape|, k.cols);
    Reel(tape, if line < top + k.rows then top else line + 1 - k.rows)
  }

  /** What one character does to the tape. */
  function Feed(k: Kit, reel: Reel, c: Byte): Reel
    requires k.cols > 0 && k.rows > 0
  {
    var line, col := Quot(|reel.tape|, k.cols), Rest(|reel.tape|, k.cols);
    if c == NEWLINE then
      Rolled(k, Padded(reel.tape, (line + 1) * k.cols), reel.top)
    else if c == BACKSPACE then
      if |reel.tape| > reel.top * k.cols then Reel(reel.tape[..|reel.tape| - 1], reel.top) else reel
    else if c == TAB then
      var stop := if NextStop(col) < k.cols then NextStop(col) else k.cols;
      Rolled(k, Padded(reel.tape, line * k.cols + stop), reel.top)
    else if c >= 0x20 then
      Rolled(k, reel.tape + [Known(k, c)], reel.top)
    else
      reel
  }

  function FeedAll(k: Kit, s: seq<Byte>): Reel
    requires k.cols > 0 && k.rows > 0
  {
    if s == [] then Reel([], 0) else Feed(k, FeedAll(k, s[..|s| - 1]), s[|s| - 1])
  }

  // ---- the window ---------------------------------------------------------------------------------

  /** Where the cell at column c, row r is on a tape whose first `top` lines are gone. */
  function At(k: Kit, top: nat, r: nat, c: nat): nat {
    (top + r) * k.cols + c
  }

  lemma AtOrder(k: Kit, top: nat, r: nat, c: nat, u: nat, v: nat)
    requires c < k.cols && v < k.cols
    ensures At(k, top, r, c) < At(k, top, u, v) <==> r < u || (r == u && c < v)
    ensures At(k, top, r, c) == At(k, top, u, v) <==> r == u && c == v
  {
    PlaceOrder(k, c, top + r, v, top + u);
  }

  lemma AtEnd(k: Kit, top: nat, r: nat)
    requires k.cols > 0
    ensures At(k, top, r + 1, 0) == At(k, top, r, k.cols - 1) + 1 && At(k, top + 1, r, 0) == At(k, top, r + 1, 0)
    ensures At(k, top, r, 0) + k.cols == At(k, top, r + 1, 0) == (top + r + 1) * k.cols
  {
    Distribute(top + r, 1, k.cols);
  }

  /** The glyph on the tape, or a blank beyond its end. */
  function CellOn(tape: seq<nat>, at: nat): Cell {
    if at < |tape| then Cell(tape[at], Plain) else BLANK
  }

  /** The grid shows the tape from line `top` on. */
  ghost predicate Window(k: Kit, g: Grid, tape: seq<nat>, top: nat)
    requires GridOk(k, g)
  {
    forall r: nat, c: nat :: r < k.rows && c < k.cols ==> g[r][c] == CellOn(tape, At(k, top, r, c))
  }

  /** The screen is the window of the reel, with the cursor where the tape ends. */
  ghost predicate Typed(k: Kit, t: Text, reel: Reel) {
    Clean(k, t) && At(k, reel.top, t.row, t.col) == |reel.tape| && Window(k, t.grid, reel.tape, reel.top)
  }

  lemma CursorLine(k: Kit, top: nat, r: nat, c: nat)
    requires c < k.cols
    ensures Quot(At(k, top, r, c), k.cols) == top + r && Rest(At(k, top, r, c), k.cols) == c
  {
    MulModPlus(top + r, k.cols, c);
  }

  lemma WindowPadded(k: Kit, g: Grid, tape: seq<nat>, top: nat, n: nat)
    requires GridOk(k, g) && Window(k, g, tape, top)
    ensures Window(k, g, Padded(tape, n), top)
  {
    hide At;
  }

  /** Writing one more glyph where the tape ends. */
  lemma WindowDrawn(k: Kit, g: Grid, tape: seq<nat>, top: nat, r: nat, c: nat, glyph: nat)
    requires GridOk(k, g) && Window(k, g, tape, top) && r < k.rows && c < k.cols && glyph < k.count
    requires At(k, top, r, c) == |tape|
    ensures GridOk(k, Set(g, c, r, Cell(glyph, Plain)))
    ensures Window(k, Set(g, c, r, Cell(glyph, Plain)), tape + [glyph], top)
  {
    var n := Set(g, c, r, Cell(glyph, Plain));
    hide At;
    forall u: nat, v: nat | u < k.rows && v < k.cols ensures n[u][v] == CellOn(tape + [glyph], At(k, top, u, v)) {
      AtOrder(k, top, u, v, r, c);
    }
  }

  /** Blanking the last cell of the tape. */
  lemma WindowCut(k: Kit, g: Grid, tape: seq<nat>, top: nat, r: nat, c: nat)
    requires GridOk(k, g) && Window(k, g, tape, top) && r < k.rows && c < k.cols && k.count > 0
    requires At(k, top, r, c) + 1 == |tape|
    ensures GridOk(k, Set(g, c, r, BLANK)) && Window(k, Set(g, c, r, BLANK), tape[..|tape| - 1], top)
  {
    var n := Set(g, c, r, BLANK);
    hide At;
    forall u: nat, v: nat | u < k.rows && v < k.cols
      ensures n[u][v] == CellOn(tape[..|tape| - 1], At(k, top, u, v))
    {
      AtOrder(k, top, u, v, r, c);
    }
  }

  lemma WindowScrolled(k: Kit, g: Grid, tape: seq<nat>, top: nat)
    requires GridOk(k, g) && k.count > 0 && k.cols > 0 && k.rows > 0 && Window(k, g, tape, top)
    requires |tape| <= At(k, top, k.rows, 0)
    ensures GridOk(k, Scrolled(k, g)) && Window(k, Scrolled(k, g), tape, top + 1)
  {
    var n := Scrolled(k, g);
    forall r: nat, c: nat | r < k.rows && c < k.cols ensures n[r][c] == CellOn(tape, At(k, top + 1, r, c)) {
      assert At(k, top + 1, r, c) == At(k, top, r + 1, c);
      hide At;
      if r + 1 < k.rows {
        assert n[r][c] == g[r + 1][c];
      } else {
        AtOrder(k, top, k.rows, 0, k.rows, c);
      }
    }
  }

  // ---- what each character does -----------------------------------------------------------------------

  /** Going to the next line when the tape ends with this one. */
  lemma {:induction false} LineEnds(k: Kit, t: Text, tape: seq<nat>, top: nat)
    requires TextOk(k, t) && Window(k, t.grid, tape, top) && At(k, top, t.row + 1, 0) == |tape|
    ensures k.cols > 0
    ensures var n, reel := ConsoleText.NewLine(k, t), Rolled(k, tape, top);
      At(k, reel.top, n.row, n.col) == |tape| && reel.tape == tape && Window(k, n.grid, tape, reel.top)
  {
    CursorLine(k, top, t.row + 1, 0);
    AtEnd(k, top, t.row);
    hide At, Window;
    if t.row + 1 >= k.rows { WindowScrolled(k, t.grid, tape, top); }
  }

  /** Staying in the line. */
  lemma LineGoesOn(k: Kit, tape: seq<nat>, top: nat, r: nat, c: nat)
    requires r < k.rows && c < k.cols && At(k, top, r, c) == |tape|
    ensures Rolled(k, tape, top) == Reel(tape, top)
  {
    CursorLine(k, top, r, c);
  }

  lemma PrintTyped(k: Kit, t: Text, reel: Reel, ch: Byte)
    requires Typed(k, t, reel) && ch >= 0x20
    ensures k.cols > 0 && k.rows > 0
    ensures var n, r := Advance(k, DrawAt(k, t, ch)), Feed(k, reel, ch);
      At(k, r.top, n.row, n.col) == |r.tape| && Window(k, n.grid, r.tape, r.top)
  {
    assert TextOk(k, t);
    var d, tape := DrawAt(k, t, ch), reel.tape + [Known(k, ch)];
    WindowDrawn(k, t.grid, reel.tape, reel.top, t.row, t.col, Known(k, ch));
    AtEnd(k, reel.top, t.row);
    if t.col + 1 < k.cols {
      assert At(k, reel.top, t.row, t.col + 1) == |tape|;
      LineGoesOn(k, tape, reel.top, t.row, t.col + 1);
    } else {
      hide At, Window, Clean;
      LineEnds(k, d, tape, reel.top);
    }
  }

  lemma NewLineTyped(k: Kit, t: Text, reel: Reel)
    requires Typed(k, t, reel)
    ensures k.cols > 0 && k.rows > 0
    ensures var n, r := ConsoleText.NewLine(k, t), Feed(k, reel, NEWLINE);
      At(k, r.top, n.row, n.col) == |r.tape| && Window(k, n.grid, r.tape, r.top)
  {
    assert TextOk(k, t);
    ToLineEnd(k, reel.top, t.row, t.col);
    WindowPadded(k, t.grid, reel.tape, reel.top, At(k, reel.top, t.row + 1, 0));
    hide At, Window, Clean;
    LineEnds(k, t, Padded(reel.tape, At(k, reel.top, t.row + 1, 0)), reel.top);
  }

  /** The line of the cursor and the place where the next one starts. */
  lemma ToLineEnd(k: Kit, top: nat, r: nat, c: nat)
    requires c < k.cols
    ensures Quot(At(k, top, r, c), k.cols) == top + r && Rest(At(k, top, r, c), k.cols) == c
    ensures At(k, top, r, c) < At(k, top, r + 1, 0) == (top + r + 1) * k.cols == (top + r) * k.cols + k.cols
  {
    CursorLine(k, top, r, c);
    AtEnd(k, top, r);
  }

  lemma TabTyped(k: Kit, t: Text, reel: Reel)
    requires Typed(k, t, reel)
    ensures k.cols > 0 && k.rows > 0
    ensures var n, r := BlankTo(k, t, NextStop(t.col)), Feed(k, reel, TAB);
      At(k, r.top, n.row, n.col) == |r.tape| && Window(k, n.grid, r.tape, r.top)
  {
    assert TextOk(k, t);
    var stop := NextStop(t.col);
    TabJumps(k, t, stop);
    ToLineEnd(k, reel.top, t.row, t.col);
    if stop < k.cols {
      var at := At(k, reel.top, t.row, stop);
      WindowPadded(k, t.grid, reel.tape, reel.top, at);
      LineGoesOn(k, Padded(reel.tape, at), reel.top, t.row, stop);
    } else {
      NewLineTyped(k, t, reel);
    }
  }

  lemma BackTyped(k: Kit, t: Text, reel: Reel)
    requires Typed(k, t, reel)
    ensures k.cols > 0 && k.rows > 0
    ensures var n, r := DrawAt(k, StepBack(k, t), 0), Feed(k, reel, BACKSPACE);
      At(k, r.top, n.row, n.col) == |r.tape| && Window(k, n.grid, r.tape, r.top)
  {
    assert TextOk(k, t);
    var b := StepBack(k, t);
    AtOrder(k, reel.top, 0, 0, t.row, t.col);
    if t.col == 0 && t.row == 0 {
      SetSame(t.grid, t.col, t.row);
    } else {
      if t.col == 0 { AtEnd(k, reel.top, t.row - 1); }
      assert At(k, reel.top, b.row, b.col) + 1 == |reel.tape|;
      WindowCut(k, t.grid, reel.tape, reel.top, b.row, b.col);
    }
  }

  /** Any character but a carriage return does to the screen what it does to the tape. */
  lemma {:induction false} FeedTyped(k: Kit, t: Text, reel: Reel, c: Byte)
    requires Typed(k, t, reel) && c != RETURN
    ensures k.cols > 0 && k.rows > 0 && Typed(k, Put(k, t, c), Feed(k, reel, c))
  {
    hide Put;
    PutKeepsClean(k, t, c);
    if c == NEWLINE { NewLineTyped(k, t, reel); }
    else if c == BACKSPACE { BackTyped(k, t, reel); }
    else if c == TAB { TabTyped(k, t, reel); }
    else if c >= 0x20 { PrintTyped(k, t, reel, c); }
  }

  /** Writing any string without a carriage return on a cleared screen shows the window of its tape. */
  lemma {:induction false} PrintedText(k: Kit, s: seq<Byte>)
    requires KitOk(k) && RETURN !in s
    ensures Typed(k, PutAll(k, Start(k), s), FeedAll(k, s))
  {
    if s == [] {
      StartIsClean(k);
    } else {
      var u := s[..|s| - 1];
      PrintedText(k, u);
      hide Typed, Feed, Put;
      FeedTyped(k, PutAll(k, Start(k), u), FeedAll(k, u), s[|s| - 1]);
    }
  }

  /** Lines scrolled off after n printed characters. */
  function TopOf(k: Kit, n: nat): nat
    requires k.cols > 0
  {
    var q := Quot(n, k.cols);
    if q < k.rows then 0 else q - (k.rows - 1)
  }

  /** Of printable characters alone the tape holds one glyph each: the cell at row r and column c shows
      character (TopOf + r) * cols + c of the string, or is blank when there is none. */
  lemma {:induction false} PrintableTape(k: Kit, s: seq<Byte>)
    requires k.cols > 0 && k.rows > 0 && forall i :: 0 <= i < |s| ==> s[i] >= 0x20
    ensures var reel := FeedAll(k, s);
      && |reel.tape| == |s| && reel.top == TopOf(k, |s|)
      && forall i :: 0 <= i < |s| ==> reel.tape[i] == if s[i] < k.count then s[i] else 0
  {
    if s != [] {
      var u := s[..|s| - 1];
      PrintableTape(k, u);
      QuotGrows(|u|, k.cols);
      hide Quot, Rest;
    }
  }

  lemma QuotGrows(n: nat, p: nat)
    requires p > 0
    ensures Quot(n, p) <= Quot(n + 1, p) <= Quot(n, p) + 1
  {
    var q, r := n / p, n % p;
    assert n == q * p + r;
    if r + 1 < p {
      MulModPlus(q, p, r + 1);
    } else {
      Distribute(q, 1, p);
      MulModPlus(q + 1, p, 0);
    }
  }
}
