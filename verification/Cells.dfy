/** The cell arithmetic of the line editor (shell/cells.go), and what it means on a terminal. */
module Cells {
  import opened Terminal

  /** A position relative to where the prompt starts. */
  datatype Cell = Cell(row: nat, col: nat)

  const ORIGIN := Cell(0, 0)

  /** Where the cursor is after r is written at p. A filled row counts as the start of the next. */
  function Advance(g: Geometry, p: Cell, r: char): Cell {
    if r == '\n' then Cell(p.row + 1, 0)
    else
      var w := g.width(r);
      if w == 0 then p
      else
        var q := Slot(g, p, r);
        var q := Cell(q.row, q.col + w);
        if g.cols > 0 && q.col >= g.cols then Cell(q.row + 1, 0) else q
  }

  /** The left cell r takes when it is written at p: a wide character that does not fit wraps whole. */
  function Slot(g: Geometry, p: Cell, r: char): Cell {
    if g.cols > 0 && p.col + g.width(r) > g.cols then Cell(p.row + 1, 0) else p
  }

  function AdvanceAll(g: Geometry, p: Cell, s: string): Cell
    decreases |s|
  {
    if s == "" then p else AdvanceAll(g, Advance(g, p, s[0]), s[1..])
  }

  /** The sequence that moves the cursor from one cell to another. */
  function MoveCursor(from: Cell, to: Cell): string {
    (if to.row > from.row then [ESC, '['] + Itoa(to.row - from.row) + ['B']
     else if to.row < from.row then [ESC, '['] + Itoa(from.row - to.row) + ['A']
     else "") +
    (if to.col != from.col then [ESC, '['] + Itoa(to.col + 1) + ['G'] else "")
  }

  /** s laid out from p over a grid whose row top is the layout's row 0. */
  function Paint(g: Geometry, grid: Grid, top: nat, p: Cell, s: string): Grid
    decreases |s|
  {
    if s == "" then grid
    else
      var q := Slot(g, p, s[0]);
      Paint(g, Draw(g, grid, Pos(top + q.row, q.col), s[0]), top, Advance(g, p, s[0]), s[1..])
  }

  /** The terminal's cursor is at p, with no wrap pending. */
  ghost predicate At(t: Term, top: nat, p: Cell) {
    t.phase == Ground && !t.pending && t.row == top + p.row && t.col == p.col
  }

  /** The terminal's cursor is at p, or still on the last column of the row that p follows. */
  ghost predicate AtOrPending(g: Geometry, t: Term, top: nat, p: Cell) {
    At(t, top, p) ||
    (t.phase == Ground && t.pending && p.col == 0 && p.row > 0 && t.row == top + p.row - 1 && t.col + 1 == g.cols)
  }

  function Abs(top: nat, p: Cell): Pos {
    Pos(top + p.row, p.col)
  }

  // ---- layout ----

  lemma {:induction false} AdvanceAllAppend(g: Geometry, p: Cell, a: string, b: string)
    ensures AdvanceAll(g, p, a + b) == AdvanceAll(g, AdvanceAll(g, p, a), b)
    decreases |a|
  {
    if a == "" {
      assert a + b == b;
    } else {
      assert (a + b)[0] == a[0] && (a + b)[1..] == a[1..] + b;
      AdvanceAllAppend(g, Advance(g, p, a[0]), a[1..], b);
    }
  }

  lemma AdvanceNone(g: Geometry, p: Cell)
    ensures AdvanceAll(g, p, "") == p
  {
  }

  lemma AdvanceOneMore(g: Geometry, p: Cell, s: string, c: char)
    ensures AdvanceAll(g, p, s + [c]) == Advance(g, AdvanceAll(g, p, s), c)
  {
    AdvanceAllAppend(g, p, s, [c]);
    assert [c][1..] == "";
  }

  lemma {:induction false} AdvanceAllInRange(g: Geometry, p: Cell, s: string)
    requires g.Valid() && p.col < g.cols && g.AllPrintable(s)
    ensures AdvanceAll(g, p, s).col < g.cols
    decreases |s|
  {
    if s != "" {
      assert g.Printable(s[0]);
      AdvanceAllInRange(g, Advance(g, p, s[0]), s[1..]);
    }
  }

  lemma {:induction false} PaintAppend(g: Geometry, grid: Grid, top: nat, p: Cell, a: string, b: string)
    ensures Paint(g, grid, top, p, a + b) == Paint(g, Paint(g, grid, top, p, a), top, AdvanceAll(g, p, a), b)
    decreases |a|
  {
    if a == "" {
      assert a + b == b;
    } else {
      assert (a + b)[0] == a[0] && (a + b)[1..] == a[1..] + b;
      var q := Slot(g, p, a[0]);
      PaintAppend(g, Draw(g, grid, Abs(top, q), a[0]), top, Advance(g, p, a[0]), a[1..], b);
    }
  }

  // ---- what the terminal does with text ----

  lemma WriteChar(g: Geometry, t: Term, top: nat, p: Cell, c: char)
    requires g.Valid() && p.col < g.cols && g.Printable(c)
    requires AtOrPending(g, t, top, p) && BlankFrom(t.grid, Abs(top, p))
    ensures var t' := Feed(g, t, c);
      && AtOrPending(g, t', top, Advance(g, p, c))
      && t'.grid == Draw(g, t.grid, Abs(top, Slot(g, p, c)), c)
      && BlankFrom(t'.grid, Abs(top, Advance(g, p, c)))
  {
    var q := Abs(top, Slot(g, p, c));
    assert Cleared(t.grid, q, g.width(c)) == t.grid by {
      assert q !in t.grid;
      assert Pos(q.row, q.col + g.width(c)) !in t.grid;
    }
  }

  /** Plain text puts the terminal's cursor where the layout has it, and paints the layout. */
  lemma {:induction false} WriteText(g: Geometry, t: Term, top: nat, p: Cell, s: string)
    requires g.Valid() && p.col < g.cols && g.AllPrintable(s)
    requires AtOrPending(g, t, top, p) && BlankFrom(t.grid, Abs(top, p))
    ensures var t' := Replay(g, t, s);
      && AtOrPending(g, t', top, AdvanceAll(g, p, s))
      && t'.grid == Paint(g, t.grid, top, p, s)
      && BlankFrom(t'.grid, Abs(top, AdvanceAll(g, p, s)))
    decreases |s|
  {
    if s != "" {
      var t1, p1 := Feed(g, t, s[0]), Advance(g, p, s[0]);
      assert p1.col < g.cols && g.AllPrintable(s[1..]) && g.Printable(s[0]);
      hide *;
      WriteChar(g, t, top, p, s[0]);
      WriteText(g, t1, top, p1, s[1..]);
      assert Replay(g, t, s) == Replay(g, t1, s[1..]);
    }
  }

  /** Text that fills its last row leaves the wrap pending. */
  lemma {:induction false} FilledIsPending(g: Geometry, t: Term, top: nat, p: Cell, s: string)
    requires g.Valid() && p.col < g.cols && g.AllPrintable(s) && s != ""
    requires AtOrPending(g, t, top, p) && BlankFrom(t.grid, Abs(top, p))
    requires AdvanceAll(g, p, s).col == 0
    ensures Replay(g, t, s).pending
    decreases |s|
  {
    assert g.Printable(s[0]);
    WriteChar(g, t, top, p, s[0]);
    if s[1..] == "" {
      assert AdvanceAll(g, p, s) == AdvanceAll(g, Advance(g, p, s[0]), "");
      assert Replay(g, t, s) == Replay(g, Feed(g, t, s[0]), "");
    } else {
      FilledIsPending(g, Feed(g, t, s[0]), top, Advance(g, p, s[0]), s[1..]);
    }
  }

  /** A space and \r at a filled row's end take the next row, deferred wrap or not, and draw nothing. */
  lemma SpaceReturn(g: Geometry, t: Term, top: nat, p: Cell)
    requires g.Valid() && p.col == 0 && p.row > 0
    requires AtOrPending(g, t, top, p) && BlankFrom(t.grid, Abs(top, p))
    ensures var t' := Replay(g, t, " \r"); At(t', top, p) && t'.grid == t.grid
  {
    WriteChar(g, t, top, p, ' ');
    var t1 := Feed(g, t, ' ');
    assert t1.grid == t.grid;
    assert " \r"[1..] == "\r" && "\r"[1..] == "";
    assert Replay(g, t1, "\r") == Replay(g, Feed(g, t1, '\r'), "");
  }

  /** MoveCursor moves the cursor and nothing else. */
  lemma ReplayMoveCursor(g: Geometry, t: Term, top: nat, from: Cell, to: Cell)
    requires At(t, top, from) && from.col < g.cols && to.col < g.cols
    ensures var t' := Replay(g, t, MoveCursor(from, to)); At(t', top, to) && t'.grid == t.grid
  {
    var rows := if to.row > from.row then [ESC, '['] + Itoa(to.row - from.row) + ['B']
                else if to.row < from.row then [ESC, '['] + Itoa(from.row - to.row) + ['A']
                else "";
    var cols := if to.col != from.col then [ESC, '['] + Itoa(to.col + 1) + ['G'] else "";
    assert MoveCursor(from, to) == rows + cols;
    ReplayAppend(g, t, rows, cols);
    if to.row > from.row {
      ReplayControl(g, t, to.row - from.row, 'B');
    } else if to.row < from.row {
      ReplayControl(g, t, from.row - to.row, 'A');
    }
    var t1 := Replay(g, t, rows);
    if to.col != from.col {
      ReplayControl(g, t1, to.col + 1, 'G');
    }
  }

  /** Text takes the cursor further. */
  lemma {:induction false} AdvancesOn(g: Geometry, top: nat, p: Cell, s: string)
    requires g.Valid() && p.col < g.cols && g.AllPrintable(s) && s != ""
    ensures Before(Abs(top, p), Abs(top, AdvanceAll(g, p, s)))
    decreases |s|
  {
    assert g.Printable(s[0]);
    if s[1..] != "" {
      AdvancesOn(g, top, Advance(g, p, s[0]), s[1..]);
    } else {
      assert AdvanceAll(g, p, s) == AdvanceAll(g, Advance(g, p, s[0]), "");
    }
  }

  predicate Blanks(s: string) {
    forall i :: 0 <= i < |s| ==> s[i] == ' '
  }

  /** Blanks draw nothing where nothing is. */
  lemma {:induction false} PaintBlanks(g: Geometry, grid: Grid, top: nat, p: Cell, s: string)
    requires g.Valid() && p.col < g.cols && g.AllPrintable(s) && Blanks(s) && BlankFrom(grid, Abs(top, p))
    ensures Paint(g, grid, top, p, s) == grid
    decreases |s|
  {
    if s != "" {
      assert g.Printable(s[0]);
      var q := Abs(top, Slot(g, p, s[0]));
      assert Draw(g, grid, q, s[0]) == grid;
      PaintBlanks(g, grid, top, Advance(g, p, s[0]), s[1..]);
    }
  }

  /** Erasing from p leaves what was there before a layout was painted from p. */
  lemma {:induction false} EraseUndoesPaint(g: Geometry, grid: Grid, top: nat, from: Cell, p: Cell, s: string)
    requires g.Valid() && p.col < g.cols && g.AllPrintable(s)
    requires !Before(Abs(top, p), Abs(top, from))
    ensures UpTo(Paint(g, grid, top, p, s), Abs(top, from)) == UpTo(grid, Abs(top, from))
    decreases |s|
  {
    if s != "" {
      assert g.Printable(s[0]);
      var q := Slot(g, p, s[0]);
      var grid' := Draw(g, grid, Abs(top, q), s[0]);
      assert UpTo(grid', Abs(top, from)) == UpTo(grid, Abs(top, from));
      EraseUndoesPaint(g, grid', top, from, Advance(g, p, s[0]), s[1..]);
    }
  }

  // ---- what a painted layout shows, cell by cell ----

  /** The left cell of character i of s. */
  function SlotOf(g: Geometry, p: Cell, s: string, i: nat): Cell
    requires i < |s|
  {
    Slot(g, AdvanceAll(g, p, s[..i]), s[i])
  }

  lemma SlotOfTail(g: Geometry, p: Cell, s: string, i: nat)
    requires i + 1 < |s|
    ensures SlotOf(g, Advance(g, p, s[0]), s[1..], i) == SlotOf(g, p, s, i + 1)
  {
    assert s[..i + 1][1..] == s[1..][..i] && s[..i + 1][0] == s[0];
  }

  /** Painting leaves what lies before p alone. */
  lemma {:induction false} PaintKeeps(g: Geometry, grid: Grid, top: nat, p: Cell, s: string, q: Pos)
    requires g.Valid() && p.col < g.cols && g.AllPrintable(s) && Before(q, Abs(top, p))
    ensures q in Paint(g, grid, top, p, s) <==> q in grid
    ensures q in grid ==> Paint(g, grid, top, p, s)[q] == grid[q]
    decreases |s|
  {
    if s != "" {
      assert g.Printable(s[0]);
      PaintKeeps(g, Draw(g, grid, Abs(top, Slot(g, p, s[0])), s[0]), top, Advance(g, p, s[0]), s[1..], q);
    }
  }

  /** Every character is in its slot, a wide one with its right half; blanks show nothing. */
  lemma {:induction false} PaintShows(g: Geometry, grid: Grid, top: nat, p: Cell, s: string, i: nat)
    requires g.Valid() && p.col < g.cols && g.AllPrintable(s) && i < |s|
    requires BlankFrom(grid, Abs(top, p))
    ensures var q, painted := Abs(top, SlotOf(g, p, s, i)), Paint(g, grid, top, p, s);
      if s[i] == ' ' then q !in painted
      else q in painted && painted[q] == Lead(s[i]) &&
           (g.width(s[i]) == 2 ==> var r := Pos(q.row, q.col + 1); r in painted && painted[r] == Trail)
    decreases |s|
  {
    if i == 0 {
      FirstShows(g, grid, top, p, s);
    } else {
      var q, p' := Abs(top, Slot(g, p, s[0])), Advance(g, p, s[0]);
      SlotOfTail(g, p, s, i - 1);
      DrawIsBlankAfter(g, grid, top, p, s[0]);
      hide SlotOf;
      PaintShows(g, Draw(g, grid, q, s[0]), top, p', s[1..], i - 1);
    }
  }

  lemma DrawShows(g: Geometry, grid: Grid, top: nat, p: Cell, c: char)
    requires g.Valid() && p.col < g.cols && g.Printable(c) && BlankFrom(grid, Abs(top, p))
    ensures
      var q, next := Abs(top, Slot(g, p, c)), Abs(top, Advance(g, p, c));
      var r, grid' := Pos(q.row, q.col + g.width(c) - 1), Draw(g, grid, q, c);
      && Advance(g, p, c).col < g.cols && Before(q, next) && Before(r, next)
      && (if c == ' ' then q !in grid' else q in grid' && grid'[q] == Lead(c))
      && (c != ' ' && g.width(c) == 2 ==> r in grid' && grid'[r] == Trail)
  {
  }

  lemma FirstShows(g: Geometry, grid: Grid, top: nat, p: Cell, s: string)
    requires g.Valid() && p.col < g.cols && g.AllPrintable(s) && s != ""
    requires BlankFrom(grid, Abs(top, p))
    ensures var q, painted := Abs(top, SlotOf(g, p, s, 0)), Paint(g, grid, top, p, s);
      if s[0] == ' ' then q !in painted
      else q in painted && painted[q] == Lead(s[0]) &&
           (g.width(s[0]) == 2 ==> var r := Pos(q.row, q.col + 1); r in painted && painted[r] == Trail)
  {
    hide Draw, Slot, Advance, BlankFrom, Before;
    assert g.Printable(s[0]) && s[..0] == "";
    DrawShows(g, grid, top, p, s[0]);
    var q, p' := Abs(top, Slot(g, p, s[0])), Advance(g, p, s[0]);
    var grid' := Draw(g, grid, q, s[0]);
    PaintKeeps(g, grid', top, p', s[1..], q);
    PaintKeeps(g, grid', top, p', s[1..], Pos(q.row, q.col + g.width(s[0]) - 1));
  }

  lemma DrawIsBlankAfter(g: Geometry, grid: Grid, top: nat, p: Cell, c: char)
    requires g.Valid() && p.col < g.cols && g.Printable(c) && BlankFrom(grid, Abs(top, p))
    ensures BlankFrom(Draw(g, grid, Abs(top, Slot(g, p, c)), c), Abs(top, Advance(g, p, c)))
    ensures Advance(g, p, c).col < g.cols
  {
  }

  /** Nothing else is shown: every cell from p on that shows something is a half of some character. */
  lemma {:induction false} PaintOnly(g: Geometry, grid: Grid, top: nat, p: Cell, s: string, q: Pos) returns (i: nat)
    requires g.Valid() && p.col < g.cols && g.AllPrintable(s)
    requires q in Paint(g, grid, top, p, s) && q !in grid
    ensures i < |s| && s[i] != ' '
    ensures var r := Abs(top, SlotOf(g, p, s, i));
      q == r || (g.width(s[i]) == 2 && q == Pos(r.row, r.col + 1))
    decreases |s|
  {
    assert g.Printable(s[0]);
    var grid' := Draw(g, grid, Abs(top, Slot(g, p, s[0])), s[0]);
    if q in grid' {
      assert s[..0] == "";
      return 0;
    }
    i := PaintOnly(g, grid', top, Advance(g, p, s[0]), s[1..], q);
    SlotOfTail(g, p, s, i);
    i := i + 1;
  }
}
