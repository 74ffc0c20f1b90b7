/** What the line editor echoes (shell/editor.go), and what that leaves on the screen. */
module Display {
  import opened Wrappers
  import opened Terminal
  import opened Cells
  import opened Prompt

  /** Where the cursor is before rune i of the line: layout()[i] of the source. */
  function CellAt(g: Geometry, cells: string, buf: string, i: nat): Cell
    requires i <= |buf|
  {
    AdvanceAll(g, ORIGIN, cells + buf[..i])
  }

  /** A row filled to its last column: the cursor belongs at the start of the next. */
  predicate Filled(p: Cell) {
    p.col == 0 && p.row > 0
  }

  /** The line from where the prompt ends, and the cursor put at its place in it. */
  function Tail(g: Geometry, cells: string, buf: string, cursor: nat): string
    requires cursor <= |buf|
  {
    var end := CellAt(g, cells, buf, |buf|);
    buf + (if Filled(end) then " \r" else "") + MoveCursor(end, CellAt(g, cells, buf, cursor))
  }

  const ERASE: string := ['\r', ESC, '[', 'J']

  /** The prompt and line drawn again, the cursor being at from. */
  function Redraw(g: Geometry, prompt: string, buf: string, cursor: nat, from: Cell): string
    requires cursor <= |buf|
  {
    MoveCursor(from, Cell(0, from.col)) + ERASE + PromptText(prompt) + Tail(g, PromptCells(prompt), buf, cursor)
  }

  lemma PrintableCalm(g: Geometry, s: string)
    requires g.AllPrintable(s)
    ensures Calm(g, s)
  {
    assert forall i :: 0 <= i < |s| ==> g.Printable(s[i]) ==> s[i] != ESC;
    CalmText(g, s);
  }

  lemma MoveCalm(g: Geometry, from: Cell, to: Cell)
    ensures Calm(g, MoveCursor(from, to))
  {
    hide Calm, Itoa;
    var rows := if to.row > from.row then [ESC, '['] + Itoa(to.row - from.row) + ['B']
                else if to.row < from.row then [ESC, '['] + Itoa(from.row - to.row) + ['A']
                else "";
    var cols := if to.col != from.col then [ESC, '['] + Itoa(to.col + 1) + ['G'] else "";
    CalmText(g, "");
    if to.row > from.row {
      CalmControl(g, to.row - from.row, 'B');
    } else if to.row < from.row {
      CalmControl(g, from.row - to.row, 'A');
    }
    if to.col != from.col { CalmControl(g, to.col + 1, 'G'); }
    CalmAppend(g, rows, cols);
  }

  lemma TailCalm(g: Geometry, cells: string, buf: string, cursor: nat)
    requires g.AllPrintable(buf) && cursor <= |buf|
    ensures Calm(g, Tail(g, cells, buf, cursor))
  {
    hide Calm, MoveCursor, AdvanceAll;
    var end := CellAt(g, cells, buf, |buf|);
    var settle := if Filled(end) then " \r" else "";
    PrintableCalm(g, buf);
    CalmText(g, settle);
    MoveCalm(g, end, CellAt(g, cells, buf, cursor));
    CalmAppend(g, buf, settle);
    CalmAppend(g, buf + settle, MoveCursor(end, CellAt(g, cells, buf, cursor)));
  }

  lemma PromptCalm(g: Geometry, prompt: string)
    requires Honest(g, prompt)
    ensures Calm(g, PromptText(prompt))
  {
    PrintableCalm(g, PromptCells(prompt));
  }

  lemma EraseCalm(g: Geometry)
    ensures Calm(g, ERASE)
  {
    forall t: Term | t.phase == Ground ensures Replay(g, t, ERASE).phase == Ground {
      var t1 := Feed(g, t, '\r');
      var t2 := Feed(g, t1, ESC);
      var t3 := Feed(g, t2, '[');
      assert ERASE[1..] == [ESC, '[', 'J'] && ERASE[1..][1..] == ['[', 'J'];
      assert ['[', 'J'][1..] == ['J'] && ['J'][1..] == "";
      assert Replay(g, t3, ['J']) == Replay(g, Feed(g, t3, 'J'), "");
      assert Replay(g, t2, ['[', 'J']) == Replay(g, t3, ['J']);
      assert Replay(g, t1, [ESC, '[', 'J']) == Replay(g, t2, ['[', 'J']);
    }
  }

  lemma RedrawCalm(g: Geometry, prompt: string, buf: string, cursor: nat, from: Cell)
    requires Honest(g, prompt) && g.AllPrintable(buf) && cursor <= |buf|
    ensures Calm(g, Redraw(g, prompt, buf, cursor, from))
  {
    hide Calm, Honest, Tail, MoveCursor, PromptText, PromptCells;
    var up := MoveCursor(from, Cell(0, from.col));
    MoveCalm(g, from, Cell(0, from.col));
    EraseCalm(g);
    PromptCalm(g, prompt);
    TailCalm(g, PromptCells(prompt), buf, cursor);
    CalmAppend(g, up, ERASE);
    CalmAppend(g, up + ERASE, PromptText(prompt));
    CalmAppend(g, up + ERASE + PromptText(prompt), Tail(g, PromptCells(prompt), buf, cursor));
  }

  /** The screen shows exactly the text laid out from the start of row top over what was above it,
      with nothing after it. */
  ghost predicate Drawn(g: Geometry, t: Term, top: nat, above: Grid, text: string) {
    BlankFrom(above, Pos(top, 0)) && t.grid == Paint(g, above, top, ORIGIN, text)
  }

  /** The prompt and the line are on the screen, the cursor at its place in the line and no wrap pending. */
  ghost predicate Shown(g: Geometry, t: Term, top: nat, above: Grid, cells: string, buf: string, cursor: nat)
  {
    cursor <= |buf| && Drawn(g, t, top, above, cells + buf) && At(t, top, CellAt(g, cells, buf, cursor))
  }

  /** The prompt is on the screen as the host left it: the wrap may be pending. */
  ghost predicate Prompted(g: Geometry, t: Term, top: nat, above: Grid, cells: string) {
    Drawn(g, t, top, above, cells) && AtOrPending(g, t, top, AdvanceAll(g, ORIGIN, cells))
  }

  lemma CellAtInRange(g: Geometry, cells: string, buf: string, i: nat)
    requires g.Valid() && g.AllPrintable(cells) && g.AllPrintable(buf) && i <= |buf|
    ensures CellAt(g, cells, buf, i).col < g.cols
  {
    AdvanceAllInRange(g, ORIGIN, cells + buf[..i]);
  }

  /** Nothing is shown after the text. */
  lemma DrawnIsBlankAfter(g: Geometry, t: Term, top: nat, above: Grid, text: string)
    requires g.Valid() && g.AllPrintable(text) && Drawn(g, t, top, above, text)
    ensures BlankFrom(t.grid, Abs(top, AdvanceAll(g, ORIGIN, text)))
  {
    WriteText(g, Term(above, top, 0, false, Ground), top, ORIGIN, text);
  }

  /** Text written after what is drawn is drawn after it. */
  lemma DrawMore(g: Geometry, t: Term, top: nat, above: Grid, a: string, b: string)
    requires g.Valid() && g.AllPrintable(a) && g.AllPrintable(b)
    requires Drawn(g, t, top, above, a) && AtOrPending(g, t, top, AdvanceAll(g, ORIGIN, a))
    ensures var t' := Replay(g, t, b);
      Drawn(g, t', top, above, a + b) && AtOrPending(g, t', top, AdvanceAll(g, ORIGIN, a + b))
  {
    DrawnIsBlankAfter(g, t, top, above, a);
    AdvanceAllInRange(g, ORIGIN, a);
    WriteText(g, t, top, AdvanceAll(g, ORIGIN, a), b);
    AdvanceAllAppend(g, ORIGIN, a, b);
    PaintAppend(g, above, top, ORIGIN, a, b);
  }

  /** Settling a cursor left on the last column of a filled row. */
  lemma Settled(g: Geometry, t: Term, top: nat, above: Grid, text: string)
    requires g.Valid() && g.AllPrintable(text)
    requires Drawn(g, t, top, above, text) && AtOrPending(g, t, top, AdvanceAll(g, ORIGIN, text))
    ensures var end := AdvanceAll(g, ORIGIN, text);
      var t' := Replay(g, t, if Filled(end) then " \r" else "");
      Drawn(g, t', top, above, text) && At(t', top, end)
  {
    DrawnIsBlankAfter(g, t, top, above, text);
    var end := AdvanceAll(g, ORIGIN, text);
    if Filled(end) {
      SpaceReturn(g, t, top, end);
    }
  }

  /** The tail written after the prompt shows the line. */
  lemma TailShows(g: Geometry, t: Term, top: nat, above: Grid, cells: string, buf: string, cursor: nat)
    requires g.Valid() && g.AllPrintable(cells) && g.AllPrintable(buf) && cursor <= |buf|
    requires Prompted(g, t, top, above, cells)
    ensures Shown(g, Replay(g, t, Tail(g, cells, buf, cursor)), top, above, cells, buf, cursor)
  {
    var end := CellAt(g, cells, buf, |buf|);
    assert buf[..|buf|] == buf;
    var settle := if Filled(end) then " \r" else "";
    var move := MoveCursor(end, CellAt(g, cells, buf, cursor));
    DrawMore(g, t, top, above, cells, buf);
    Settled(g, Replay(g, t, buf), top, above, cells + buf);
    CellAtInRange(g, cells, buf, |buf|);
    CellAtInRange(g, cells, buf, cursor);
    ReplayAppend(g, t, buf, settle);
    ReplayAppend(g, t, buf + settle, move);
    ReplayMoveCursor(g, Replay(g, t, buf + settle), top, end, CellAt(g, cells, buf, cursor));
  }

  /** Runes written at the line's end show the longer line. */
  lemma AppendShows(g: Geometry, t: Term, top: nat, above: Grid, cells: string, buf: string, rs: string)
    requires g.Valid() && g.AllPrintable(cells) && g.AllPrintable(buf) && g.AllPrintable(rs)
    requires Shown(g, t, top, above, cells, buf, |buf|)
    ensures var line := buf + rs;
      var end := CellAt(g, cells, line, |line|);
      Shown(g, Replay(g, t, if Filled(end) then rs + " \r" else rs), top, above, cells, line, |line|)
  {
    var line := buf + rs;
    assert line[..|line|] == line && buf[..|buf|] == buf;
    Assoc(cells, buf, rs);
    DrawMore(g, t, top, above, cells + buf, rs);
    Settled(g, Replay(g, t, rs), top, above, cells + line);
    ReplayAppend(g, t, rs, " \r");
  }

  /** A prompt written on a fresh row. */
  lemma PromptOnFreshRow(g: Geometry, t: Term, prompt: string)
    requires g.Valid() && Fresh(t) && Honest(g, prompt)
    ensures Prompted(g, Replay(g, t, PromptText(prompt)), t.row, t.grid, PromptCells(prompt))
  {
    WriteText(g, t, t.row, ORIGIN, PromptCells(prompt));
  }

  /** Erasing from the prompt's start leaves a fresh row under what was above. */
  lemma EraseIsFresh(g: Geometry, t: Term, top: nat, above: Grid, text: string, col: nat)
    requires g.Valid() && g.AllPrintable(text)
    requires Drawn(g, t, top, above, text) && At(t, top, Cell(0, col))
    ensures var t' := Replay(g, t, ERASE); Fresh(t') && t'.row == top && t'.grid == above
  {
    var t1 := Feed(g, t, '\r');
    assert ERASE == "\r" + [ESC, '[', 'J'];
    ReplayAppend(g, t, "\r", [ESC, '[', 'J']);
    assert "\r"[1..] == "";
    var t2 := Feed(g, t1, ESC);
    var t3 := Feed(g, t2, '[');
    var t4 := Feed(g, t3, 'J');
    assert [ESC, '[', 'J'][1..] == ['[', 'J'] && ['[', 'J'][1..] == ['J'] && ['J'][1..] == "";
    assert Replay(g, t3, ['J']) == Replay(g, t4, "");
    assert Replay(g, t2, ['[', 'J']) == Replay(g, t3, ['J']);
    assert t4.grid == UpTo(t.grid, Pos(top, 0));
    EraseUndoesPaint(g, above, top, ORIGIN, ORIGIN, text);
    assert UpTo(above, Pos(top, 0)) == above;
  }

  /** Drawing again replaces one line by another, wherever the cursor was in the old one. */
  lemma RedrawShows(g: Geometry, t: Term, top: nat, above: Grid, prompt: string, buf: string, cursor: nat,
                    buf': string, cursor': nat)
    requires g.Valid() && Honest(g, prompt) && g.AllPrintable(buf) && g.AllPrintable(buf') && cursor' <= |buf'|
    requires Shown(g, t, top, above, PromptCells(prompt), buf, cursor)
    ensures var from := CellAt(g, PromptCells(prompt), buf, cursor);
      Shown(g, Replay(g, t, Redraw(g, prompt, buf', cursor', from)), top, above, PromptCells(prompt), buf', cursor')
  {
    var cells := PromptCells(prompt);
    var from := CellAt(g, cells, buf, cursor);
    var up, text, tail := MoveCursor(from, Cell(0, from.col)), PromptText(prompt), Tail(g, cells, buf', cursor');
    CellAtInRange(g, cells, buf, cursor);
    ReplayMoveCursor(g, t, top, from, Cell(0, from.col));
    var t1 := Replay(g, t, up);
    EraseIsFresh(g, t1, top, above, cells + buf, from.col);
    var t2 := Replay(g, t1, ERASE);
    PromptOnFreshRow(g, t2, prompt);
    TailShows(g, Replay(g, t2, text), top, above, cells, buf', cursor');
    ReplayAppend(g, t, up + ERASE + text, tail);
    ReplayAppend(g, t, up + ERASE, text);
    ReplayAppend(g, t, up, ERASE);
  }

  /** \r\n after the text goes to a fresh row. */
  lemma NewLineIsFresh(g: Geometry, t: Term, top: nat, above: Grid, text: string)
    requires g.Valid() && g.AllPrintable(text)
    requires Drawn(g, t, top, above, text) && AtOrPending(g, t, top, AdvanceAll(g, ORIGIN, text))
    ensures var t' := Replay(g, t, "\r\n"); Fresh(t') && t'.grid == t.grid && t'.row > top
  {
    DrawnIsBlankAfter(g, t, top, above, text);
    var t1 := Feed(g, t, '\r');
    assert "\r\n"[1..] == "\n" && "\n"[1..] == "";
    assert Replay(g, t1, "\n") == Replay(g, Feed(g, t1, '\n'), "");
  }
}
