/** The wrapping line editor (shell/editor.go) with a prompt set, on a terminal that wraps.

    wire is everything the terminal has been sent, by the editor's Echo and by its owner. The invariant says
    that a terminal replaying it shows the prompt and the line, with the cursor where the editor has it. Enter leaves
    the display without a prompt until the owner answers the line; runes taken before that are echoed where the
    editor does not expect them to be, and then nothing is said of the screen until a prompt is written on a fresh
    row again.
 */
module LineEditor {
  import opened Terminal
  import opened Cells
  import opened Prompt
  import opened Display
  import opened Line
  import opened Completion
  import opened Keys
  import opened Utf8
  import opened Wrappers

  /** What the owner must do for the display to be right: start prompts on fresh rows, keep them to text, colours
      and titles, leave no sequence unfinished, and offer completions that extend the word. */
  ghost predicate HostValid(g: Geometry, host: Host) {
    && (forall t: Term, line: string :: Fresh(t) ==> Fresh(Replay(g, t, host.submitText(line))))
    && (forall t: Term :: Fresh(t) ==> Fresh(Replay(g, t, host.interruptText)))
    && (forall t: Term :: t.phase == Ground ==> Fresh(Replay(g, t, host.clearText)))
    && (forall t: Term :: LastRow(t) ==> Fresh(Replay(g, t, host.eofText)))
    && (forall line: string :: Calm(g, host.submitText(line))) && Calm(g, host.interruptText) && Calm(g, host.eofText)
    && (forall line: string :: Honest(g, host.submitPrompt(line)))
    && Honest(g, host.interruptPrompt) && Honest(g, host.clearPrompt) && Honest(g, host.eofPrompt)
    && Extend(host)
    && (forall word: string, first: bool, s: string :: s in host.complete(word, first) ==> g.AllPrintable(s))
    && g.Printable(REPLACEMENT)
  }

  /** Nothing is shown after the cursor. */
  ghost predicate LastRow(t: Term) {
    t.phase == Ground && !t.pending && BlankFrom(t.grid, Pos(t.row, t.col))
  }

  ghost predicate AllLinesPrintable(g: Geometry, lines: seq<string>) {
    forall i :: 0 <= i < |lines| ==> g.AllPrintable(lines[i])
  }

  /** Runes that may be typed: controls, and characters of one or two cells. */
  ghost predicate Typable(g: Geometry, data: string) {
    forall i :: 0 <= i < |data| ==> data[i] < ' ' || data[i] == DEL || g.Printable(data[i])
  }

  predicate EndsWith(s: string, end: string) {
    |end| <= |s| && s[|s| - |end|..] == end
  }

  function JoinCandidates(ss: seq<string>): string {
    if ss == [] then "" else if |ss| == 1 then ss[0] else ss[0] + "  " + JoinCandidates(ss[1..])
  }

  /** Each further candidate comes after two blanks. */
  lemma {:induction false} JoinedMore(ss: seq<string>, s: string)
    ensures JoinCandidates(ss + [s]) == if ss == [] then s else JoinCandidates(ss) + "  " + s
    decreases |ss|
  {
    if ss == [] {
      assert [] + [s] == [s];
    } else {
      assert (ss + [s])[0] == ss[0] && (ss + [s])[1..] == ss[1..] + [s];
      JoinedMore(ss[1..], s);
      if |ss| > 1 {
        Assoc(ss[0] + "  ", JoinCandidates(ss[1..]), "  ");
        Assoc(ss[0] + "  ", JoinCandidates(ss[1..]) + "  ", s);
      }
    }
  }

  lemma {:induction false} JoinPrintable(g: Geometry, ss: seq<string>)
    requires g.Valid() && AllLinesPrintable(g, ss)
    ensures g.AllPrintable(JoinCandidates(ss))
    decreases |ss|
  {
    if |ss| > 1 {
      JoinPrintable(g, ss[1..]);
      assert g.AllPrintable(ss[0]);
    } else if |ss| == 1 {
      assert g.AllPrintable(ss[0]);
    }
  }

  /** Everything but the screen. */
  ghost predicate Usable(g: Geometry, host: Host, prompt: string, c: Content) {
    && g.Valid() && HostValid(g, host) && Honest(g, prompt)
    && c.Valid() && g.AllPrintable(c.buf) && g.AllPrintable(c.histSave) && AllLinesPrintable(g, c.history)
    && AllLinesPrintable(g, c.submitted)
  }

  /** Once the first key has settled the cursor, the screen shows the prompt and the line. Before that the
      line is empty and the prompt is as its owner wrote it. */
  ghost predicate OnScreen(g: Geometry, t: Term, top: nat, above: Grid, prompt: string, settled: bool,
                           buf: string, cursor: nat) {
    if settled then Shown(g, t, top, above, PromptCells(prompt), buf, cursor)
    else buf == "" && Prompted(g, t, top, above, PromptCells(prompt))
  }

  /** With the prompt written on a fresh row, an empty line is usable and on the screen. */
  lemma StartsUsable(g: Geometry, host: Host, prompt: string, start: Term)
    requires g.Valid() && HostValid(g, host) && Honest(g, prompt) && Fresh(start)
    ensures Usable(g, host, prompt, Content("", 0, [], 0, "", 0, "", [], 0))
    ensures OnScreen(g, Replay(g, start, PromptText(prompt)), start.row, start.grid, prompt, false, "", 0)
  {
    PromptOnFreshRow(g, start, prompt);
  }

  lemma UsableFacts(g: Geometry, host: Host, prompt: string, c: Content)
    requires Usable(g, host, prompt, c)
    ensures g.Valid() && c.Valid() && g.AllPrintable(c.buf) && Extend(host)
    ensures Honest(g, prompt) && g.AllPrintable(PromptCells(prompt))
  {
  }

  lemma HostSubmit(g: Geometry, host: Host, prompt: string, c: Content, t: Term, line: string)
    requires Usable(g, host, prompt, c)
    ensures Fresh(t) ==> Fresh(Replay(g, t, host.submitText(line)))
    ensures Calm(g, host.submitText(line)) && Honest(g, host.submitPrompt(line))
  {
  }

  lemma HostInterrupt(g: Geometry, host: Host, prompt: string, c: Content, t: Term)
    requires Usable(g, host, prompt, c)
    ensures Fresh(t) ==> Fresh(Replay(g, t, host.interruptText))
    ensures Calm(g, host.interruptText) && Honest(g, host.interruptPrompt)
  {
  }

  lemma HostEof(g: Geometry, host: Host, prompt: string, c: Content)
    requires Usable(g, host, prompt, c)
    ensures forall t: Term :: LastRow(t) ==> Fresh(Replay(g, t, host.eofText))
    ensures Calm(g, host.eofText) && Honest(g, host.eofPrompt) && Usable(g, host, host.eofPrompt, c)
  {
  }

  lemma HostClear(g: Geometry, host: Host, prompt: string, c: Content, t: Term)
    requires Usable(g, host, prompt, c) && t.phase == Ground
    ensures Fresh(Replay(g, t, host.clearText)) && Usable(g, host, host.clearPrompt, c)
  {
  }

  // ---- a prompt that comes late ----

  /** Does a prompt just written on a fresh row show the line as well? Before any key is taken the line is empty;
      after one there must be nothing of it to see, the cursor at its start, and no wrap pending. */
  predicate NothingTyped(g: Geometry, prompt: string, settled: bool, buf: string, cursor: nat) {
    !settled || (Blanks(buf) && cursor == 0 && !Filled(AdvanceAll(g, ORIGIN, PromptCells(prompt))))
  }

  lemma BlankLineShows(g: Geometry, t: Term, top: nat, above: Grid, cells: string, buf: string)
    requires g.Valid() && g.AllPrintable(cells) && g.AllPrintable(buf) && Blanks(buf)
    requires Prompted(g, t, top, above, cells) && !Filled(AdvanceAll(g, ORIGIN, cells))
    ensures Shown(g, t, top, above, cells, buf, 0)
  {
    assert cells + buf[..0] == cells;
    DrawnIsBlankAfter(g, t, top, above, cells);
    AdvanceAllInRange(g, ORIGIN, cells);
    PaintAppend(g, above, top, ORIGIN, cells, buf);
    PaintBlanks(g, t.grid, top, AdvanceAll(g, ORIGIN, cells), buf);
  }

  lemma ShownIsBlank(g: Geometry, t: Term, top: nat, above: Grid, cells: string, buf: string, cursor: nat)
    requires g.Valid() && g.AllPrintable(cells) && g.AllPrintable(buf) && cursor <= |buf|
    requires Prompted(g, t, top, above, cells) && Shown(g, t, top, above, cells, buf, cursor)
    ensures Blanks(buf) && cursor == 0
  {
    var end := AdvanceAll(g, ORIGIN, cells);
    DrawnIsBlankAfter(g, t, top, above, cells);
    AdvanceAllInRange(g, ORIGIN, cells);
    if cursor > 0 {
      AdvanceAllAppend(g, ORIGIN, cells, buf[..cursor]);
      AdvancesOn(g, top, end, buf[..cursor]);
    }
    PaintAppend(g, above, top, ORIGIN, cells, buf);
    forall i | 0 <= i < |buf| ensures buf[i] == ' ' {
      PaintShows(g, t.grid, top, end, buf, i);
      SlotsFollow(g, top, end, buf, i);
    }
  }

  lemma SlotsFollow(g: Geometry, top: nat, p: Cell, s: string, i: nat)
    requires g.Valid() && p.col < g.cols && g.AllPrintable(s) && i < |s|
    ensures !Before(Abs(top, SlotOf(g, p, s, i)), Abs(top, p))
  {
    if s[..i] != "" { AdvancesOn(g, top, p, s[..i]); }
    assert g.Printable(s[i]);
  }

  /** A prompt written on a fresh row leaves the display right exactly when nothing was typed. */
  lemma LatePrompt(g: Geometry, t: Term, prompt: string, settled: bool, buf: string, cursor: nat)
    requires g.Valid() && Fresh(t) && Honest(g, prompt) && g.AllPrintable(buf) && cursor <= |buf|
    requires !settled ==> buf == ""
    ensures
      OnScreen(g, Replay(g, t, PromptText(prompt)), t.row, t.grid, prompt, settled, buf, cursor)
      <==> NothingTyped(g, prompt, settled, buf, cursor)
  {
    hide Shown, Prompted, Replay, PromptCells, PromptText, Fresh;
    var cells := PromptCells(prompt);
    var shown := Replay(g, t, PromptText(prompt));
    HonestFacts(g, prompt);
    PromptOnFreshRow(g, t, prompt);
    if Shown(g, shown, t.row, t.grid, cells, buf, cursor) {
      ShownIsBlank(g, shown, t.row, t.grid, cells, buf, cursor);
      FilledIsNotShown(g, t, prompt, buf);
    } else if Blanks(buf) && !Filled(AdvanceAll(g, ORIGIN, cells)) {
      BlankLineShows(g, shown, t.row, t.grid, cells, buf);
    }
  }

  lemma HonestFacts(g: Geometry, prompt: string)
    requires Honest(g, prompt)
    ensures g.AllPrintable(PromptCells(prompt))
  {
  }

  lemma FilledIsNotShown(g: Geometry, t: Term, prompt: string, buf: string)
    requires g.Valid() && Fresh(t) && Honest(g, prompt)
    requires Shown(g, Replay(g, t, PromptText(prompt)), t.row, t.grid, PromptCells(prompt), buf, 0)
    ensures !Filled(AdvanceAll(g, ORIGIN, PromptCells(prompt)))
  {
    var cells := PromptCells(prompt);
    assert cells + buf[..0] == cells;
    if Filled(AdvanceAll(g, ORIGIN, cells)) {
      FilledIsPending(g, t, t.row, ORIGIN, cells);
    }
  }

  lemma CalmHere(g: Geometry, t: Term, s: string)
    requires Calm(g, s)
    ensures t.phase == Ground ==> Replay(g, t, s).phase == Ground
  {
  }

  lemma AppendCalm(g: Geometry, t: Term, rs: string)
    requires g.AllPrintable(rs) && t.phase == Ground
    ensures Replay(g, t, rs).phase == Ground && Replay(g, t, rs + " \r").phase == Ground
  {
    hide Replay;
    PrintableCalm(g, rs);
    CalmText(g, " \r");
    CalmAppend(g, rs, " \r");
  }

  lemma OnScreenFacts(g: Geometry, t: Term, top: nat, above: Grid, prompt: string, settled: bool, buf: string,
        cursor: nat)
    requires OnScreen(g, t, top, above, prompt, settled, buf, cursor)
    ensures t.phase == Ground && (!settled ==> buf == "")
  {
  }

  lemma ListingCalm(g: Geometry, list: string, prompt: string, buf: string, cursor: nat)
    requires g.AllPrintable(list) && Honest(g, prompt) && g.AllPrintable(buf) && cursor <= |buf|
    ensures Calm(g, "\r\n" + list + "\r\n" + PromptText(prompt) + Tail(g, PromptCells(prompt), buf, cursor))
  {
    hide Calm, Honest, Tail, PromptText, PromptCells;
    CalmText(g, "\r\n");
    PrintableCalm(g, list);
    PromptCalm(g, prompt);
    TailCalm(g, PromptCells(prompt), buf, cursor);
    CalmAppend(g, "\r\n", list);
    CalmAppend(g, "\r\n" + list, "\r\n");
    CalmAppend(g, "\r\n" + list + "\r\n", PromptText(prompt));
    CalmAppend(g, "\r\n" + list + "\r\n" + PromptText(prompt), Tail(g, PromptCells(prompt), buf, cursor));
  }

  // ---- what each piece of output keeps ----

  lemma SettleKeeps(g: Geometry, host: Host, prompt: string, c: Content, t: Term, top: nat, above: Grid)
    requires Usable(g, host, prompt, c) && OnScreen(g, t, top, above, prompt, false, c.buf, c.cursor)
    ensures var p := CellAt(g, PromptCells(prompt), c.buf, c.cursor);
      OnScreen(g, if Filled(p) then Replay(g, t, " \r") else t, top, above, prompt, true, c.buf, c.cursor)
  {
    hide HostValid, Honest, AllLinesPrintable, Replay, PromptCells;
    UsableFacts(g, host, prompt, c);
    var cells := PromptCells(prompt);
    assert cells + c.buf[..c.cursor] == cells + c.buf == cells;
    Settled(g, t, top, above, cells);
  }

  lemma RefreshKeeps(g: Geometry, host: Host, prompt: string, c: Content, d: Content, t: Term, top: nat, above: Grid)
    requires Usable(g, host, prompt, c) && OnScreen(g, t, top, above, prompt, true, c.buf, c.cursor)
    requires Usable(g, host, prompt, d)
    ensures var from := CellAt(g, PromptCells(prompt), c.buf, c.cursor);
      OnScreen(g, Replay(g, t, Redraw(g, prompt, d.buf, d.cursor, from)), top, above, prompt, true, d.buf, d.cursor)
  {
    RedrawShows(g, t, top, above, prompt, c.buf, c.cursor, d.buf, d.cursor);
  }

  lemma MoveKeeps(g: Geometry, host: Host, prompt: string, c: Content, t: Term, top: nat, above: Grid, i: nat)
    requires Usable(g, host, prompt, c) && OnScreen(g, t, top, above, prompt, true, c.buf, c.cursor) && i <= |c.buf|
    ensures var cells := PromptCells(prompt);
      OnScreen(g, Replay(g, t, MoveCursor(CellAt(g, cells, c.buf, c.cursor), CellAt(g, cells, c.buf, i))),
               top, above, prompt, true, c.buf, i)
    ensures Usable(g, host, prompt, c.(cursor := i))
  {
    var cells := PromptCells(prompt);
    CellAtInRange(g, cells, c.buf, c.cursor);
    CellAtInRange(g, cells, c.buf, i);
    ReplayMoveCursor(g, t, top, CellAt(g, cells, c.buf, c.cursor), CellAt(g, cells, c.buf, i));
  }

  /** Runes added at the line's end are written as they are. */
  lemma AppendKeeps(g: Geometry, host: Host, prompt: string, c: Content, t: Term, top: nat, above: Grid, rs: string)
    requires Usable(g, host, prompt, c) && OnScreen(g, t, top, above, prompt, true, c.buf, c.cursor)
    requires c.cursor == |c.buf| && g.AllPrintable(rs)
    ensures var d := c.(buf := c.buf + rs, cursor := |c.buf| + |rs|);
      var end := CellAt(g, PromptCells(prompt), d.buf, d.cursor);
      OnScreen(g, Replay(g, t, if Filled(end) then rs + " \r" else rs), top, above, prompt, true, d.buf, d.cursor)
  {
    hide Usable, HostValid, Honest, Replay, CellAt, PromptCells, Shown;
    UsableFacts(g, host, prompt, c);
    AppendShows(g, t, top, above, PromptCells(prompt), c.buf, rs);
  }

  /** A new prompt after text that its owner starts on the row below the line, or on a cleared screen. */
  lemma PromptKeeps(g: Geometry, host: Host, prompt: string, c: Content, t: Term, text: string)
    requires Usable(g, host, prompt, c) && Fresh(Replay(g, t, text))
    ensures var t' := Replay(g, t, text);
      var shown := Replay(g, t, text + PromptText(prompt));
      && (c.buf == "" ==> OnScreen(g, shown, t'.row, t'.grid, prompt, false, c.buf, c.cursor))
      && OnScreen(g, Replay(g, t, text + PromptText(prompt) + Tail(g, PromptCells(prompt), c.buf, c.cursor)),
                  t'.row, t'.grid, prompt, true, c.buf, c.cursor)
  {
    var t' := Replay(g, t, text);
    ReplayAppend(g, t, text, PromptText(prompt));
    PromptOnFreshRow(g, t', prompt);
    ReplayAppend(g, t, text + PromptText(prompt), Tail(g, PromptCells(prompt), c.buf, c.cursor));
    TailShows(g, Replay(g, t, text + PromptText(prompt)), t'.row, t'.grid, PromptCells(prompt), c.buf, c.cursor);
  }

  /** From the line's end, optional text such as ^C and then \r\n lead to a fresh row. */
  lemma LeaveLine(g: Geometry, host: Host, prompt: string, c: Content, t: Term, top: nat, above: Grid, mark: string)
    requires Usable(g, host, prompt, c) && OnScreen(g, t, top, above, prompt, true, c.buf, c.cursor)
    requires c.cursor == |c.buf| && g.AllPrintable(mark)
    ensures Fresh(Replay(g, t, mark + "\r\n"))
  {
    hide HostValid, Honest, AllLinesPrintable, Replay, Fresh, PromptCells;
    UsableFacts(g, host, prompt, c);
    var cells := PromptCells(prompt);
    assert c.buf[..|c.buf|] == c.buf;
    DrawMore(g, t, top, above, cells + c.buf, mark);
    NewLineIsFresh(g, Replay(g, t, mark), top, above, cells + c.buf + mark);
    ReplayAppend(g, t, mark, "\r\n");
  }

  lemma InsertUsable(g: Geometry, host: Host, prompt: string, c: Content, rs: string)
    requires Usable(g, host, prompt, c) && g.AllPrintable(rs)
    ensures Usable(g, host, prompt, Inserted(c, rs))
  {
  }

  lemma RemoveUsable(g: Geometry, host: Host, prompt: string, c: Content, i: nat, j: nat)
    requires Usable(g, host, prompt, c) && i <= j <= |c.buf|
    ensures Usable(g, host, prompt, Removed(c, i, j))
  {
  }

  lemma InsertNothing(c: Content)
    requires c.Valid()
    ensures Inserted(c, "") == c
  {
  }

  lemma AppendIsInsert(c: Content, rs: string)
    requires c.Valid() && c.cursor == |c.buf|
    ensures Inserted(c, rs) == c.(buf := c.buf + rs, cursor := |c.buf| + |rs|)
  {
    assert c.buf[..c.cursor] + rs + c.buf[c.cursor..] == c.buf + rs;
  }

  lemma MoveUsable(g: Geometry, host: Host, prompt: string, c: Content, i: nat)
    requires Usable(g, host, prompt, c) && i <= |c.buf|
    ensures Usable(g, host, prompt, c.(cursor := i))
  {
  }

  lemma CaretPrintable(g: Geometry)
    requires g.Valid()
    ensures g.AllPrintable("^C")
  {
    assert g.width('^') == 1 && g.width('C') == 1;
  }

  lemma HistoryUsable(g: Geometry, host: Host, prompt: string, c: Content, idx: nat, save: string)
    requires Usable(g, host, prompt, c) && idx <= |c.history| && g.AllPrintable(save)
    ensures Usable(g, host, prompt, c.(histIdx := idx, histSave := save))
  {
  }

  lemma EscapeUsable(g: Geometry, host: Host, prompt: string, c: Content, esc: nat, csi: string)
    requires Usable(g, host, prompt, c) && esc <= 2
    ensures Usable(g, host, prompt, c.(esc := esc, csi := csi))
  {
  }

  lemma SequenceUsable(g: Geometry, host: Host, prompt: string, c: Content, s: string)
    requires Usable(g, host, prompt, c)
    ensures Usable(g, host, prompt, Sequence(c, s))
  {
    if s == "A" && c.histIdx > 0 {
      assert g.AllPrintable(c.history[c.histIdx - 1]);
    } else if s == "B" && c.histIdx + 1 < |c.history| {
      assert g.AllPrintable(c.history[c.histIdx + 1]);
    }
  }

  lemma ResetUsable(g: Geometry, host: Host, prompt: string, c: Content, p: string)
    requires Usable(g, host, prompt, c) && Honest(g, p)
    ensures Usable(g, host, p, Reset(c)) && Usable(g, host, p, Submitted(c))
  {
  }

  lemma AnswerUsable(g: Geometry, host: Host, prompt: string, c: Content, p: string)
    requires Usable(g, host, prompt, c) && c.Waiting() && Honest(g, p)
    ensures Usable(g, host, p, Answered(host, c))
  {
    assert g.AllPrintable(c.submitted[c.answered]);
  }

  /** What completion inserts can be drawn. */
  lemma CompletionPrintable(g: Geometry, host: Host, prompt: string, c: Content)
    requires Usable(g, host, prompt, c)
    ensures AllLinesPrintable(g, Candidates(host, c))
    ensures g.AllPrintable(Addition(c.buf[WordStart(c)..c.cursor], Candidates(host, c)))
  {
    var ss := Candidates(host, c);
    forall i | 0 <= i < |ss|
      ensures g.AllPrintable(ss[i])
    {
      assert ss[i] in ss;
    }
    var word := c.buf[WordStart(c)..c.cursor];
    if |ss| == 1 {
      assert g.AllPrintable(ss[0]) && ss[0] in ss;
      assert g.AllPrintable(ss[0][|word|..]);
    } else if ss != [] {
      assert g.AllPrintable(ss[0]) && ss[0] in ss;
      CommonPrintable(g, word, ss);
    }
  }

  lemma ExtendCandidates(host: Host, c: Content)
    requires c.Valid() && Extend(host)
    ensures forall s :: s in Candidates(host, c) ==> c.buf[WordStart(c)..c.cursor] <= s
  {
  }

  /** What is added, case by case. */
  lemma AdditionIs(word: string, candidates: seq<string>)
    requires forall s :: s in candidates ==> word <= s
    ensures candidates == [] ==> Addition(word, candidates) == ""
    ensures |candidates| == 1 ==>
      |word| <= |candidates[0]| &&
      Addition(word, candidates) == if candidates[0] == "" || candidates[0][|candidates[0]| - 1] != '/'
        then candidates[0][|word|..] + " " else candidates[0][|word|..]
    ensures |candidates| > 1 ==>
      var common := CommonBytes(candidates[0], candidates[1..]);
      Addition(word, candidates) == if |common| > |Encode(word)| then Decode(common[|Encode(word)|..]) else ""
  {
    hide CommonBytes, Encode, Decode;
    if |candidates| == 1 {
      assert candidates[0] in candidates;
      assert candidates[0][|word|..] + "" == candidates[0][|word|..];
    }
  }

  lemma CommonPrintable(g: Geometry, word: string, ss: seq<string>)
    requires |ss| > 1 && g.AllPrintable(ss[0]) && g.Printable(REPLACEMENT) && forall s :: s in ss ==> word <= s
    ensures g.AllPrintable(Addition(word, ss))
  {
    hide Addition, CommonBytes, Encode;
    AddsRunes(word, ss);
    var c := CommonRunes(ss[0], ss[1..]);
    RepeatedPrintable(g, |CommonBytes(ss[0], ss[1..])| - |Encode(c)|);
  }

  lemma {:induction false} RepeatedPrintable(g: Geometry, n: nat)
    requires g.Printable(REPLACEMENT)
    ensures g.AllPrintable(Repeated(REPLACEMENT, n))
    decreases n
  {
    if n > 0 {
      RepeatedPrintable(g, n - 1);
    }
  }

  /** The candidates listed under the line end on a fresh row. */
  lemma ListingIsFresh(g: Geometry, host: Host, prompt: string, c: Content, t: Term, top: nat, above: Grid,
        list: string)
    requires Usable(g, host, prompt, c) && OnScreen(g, t, top, above, prompt, true, c.buf, |c.buf|)
    requires g.AllPrintable(list)
    ensures Fresh(Replay(g, t, "\r\n" + list + "\r\n"))
  {
    hide Usable, OnScreen, HostValid, Honest, Replay, CellAt, PromptCells, Shown;
    UsableFacts(g, host, prompt, c);
    MoveUsable(g, host, prompt, c, |c.buf|);
    LeaveLine(g, host, prompt, c.(cursor := |c.buf|), t, top, above, "");
    assert "" + "\r\n" == "\r\n";
    var t1 := Replay(g, t, "\r\n");
    assert Drawn(g, t1, t1.row, t1.grid, "");
    DrawMore(g, t1, t1.row, t1.grid, "", list);
    assert "" + list == list;
    NewLineIsFresh(g, Replay(g, t1, list), t1.row, t1.grid, list);
    ReplayAppend(g, t, "\r\n", list);
    ReplayAppend(g, t, "\r\n" + list, "\r\n");
  }

  /** At an empty line Ctrl+D's answer and a new prompt, written with the cursor already settled, leave the
      display right exactly when the prompt does not end at the right edge. */
  lemma EofNeedsRoom(g: Geometry, t: Term, top: nat, above: Grid, prompt: string, text: string, next: string)
    requires g.Valid() && Honest(g, prompt) && Honest(g, next)
    requires OnScreen(g, t, top, above, prompt, true, "", 0)
    requires forall t: Term :: LastRow(t) ==> Fresh(Replay(g, t, text))
    ensures var t' := Replay(g, t, text);
      var shown := Replay(g, t, text + PromptText(next));
      OnScreen(g, shown, t'.row, t'.grid, next, true, "", 0) <==> !Filled(AdvanceAll(g, ORIGIN, PromptCells(next)))
  {
    hide Replay, PromptCells, PromptText, Fresh, LastRow, OnScreen;
    OnLastRow(g, t, top, above, prompt);
    ReplayAppend(g, t, text, PromptText(next));
    LatePrompt(g, Replay(g, t, text), next, true, "", 0);
  }

  /** The cursor after an empty line is at the end of what is shown. */
  lemma OnLastRow(g: Geometry, t: Term, top: nat, above: Grid, prompt: string)
    requires g.Valid() && Honest(g, prompt) && OnScreen(g, t, top, above, prompt, true, "", 0)
    ensures LastRow(t)
  {
    var cells := PromptCells(prompt);
    assert cells + "" == cells;
    DrawnIsBlankAfter(g, t, top, above, cells);
  }

  lemma {:induction false} RunSnoc(host: Host, c: Content, data: string, i: nat)
    requires c.Valid() && Extend(host) && i < |data|
    ensures Run(host, c, data[..i + 1]) == Step(host, Run(host, c, data[..i]), data[i])
  {
    RunAppend(host, c, data[..i], [data[i]]);
    assert data[..i + 1] == data[..i] + [data[i]];
    assert [data[i]][1..] == "";
  }

  // ---- what is known of the screen ----

  /** The prompt and the line are shown; or the line was left by Enter for a fresh row, and nothing taken since; or
      neither is known. */
  datatype Screenful = Showing | Left | Lost

  /** The display is as promised, or nothing was. */
  predicate Promise(display: Screenful, promised: Screenful) {
    promised == Lost || display == promised
  }

  /** Does the rune end the line? Any other leaves the cursor settled. */
  predicate EndsLineAt(c: Content, r: char) {
    c.esc != 2 && (r == '\r' || r == '\n' || r == CTRL_C)
  }

  /** After one rune outside an escape sequence. */
  function KeyShows(g: Geometry, host: Host, d: Screenful, c: Content, r: char): Screenful {
    if r == CTRL_L then Showing
    else if d != Showing then Lost
    else if r == '\r' || r == '\n' then Left
    else if r == CTRL_D && c.buf == "" && Filled(AdvanceAll(g, ORIGIN, PromptCells(host.eofPrompt))) then Lost
    else Showing
  }

  /** After one rune of input. */
  function Shows(g: Geometry, host: Host, d: Screenful, c: Content, r: char): Screenful {
    var d := if d == Left then Lost else d;
    if c.esc == 2 || (c.esc == 1 && (r == '[' || r == 'O')) then d else KeyShows(g, host, d, c, r)
  }

  function ShowsAfter(g: Geometry, host: Host, d: Screenful, c: Content, data: string): Screenful
    requires c.Valid() && Extend(host)
    decreases |data|
  {
    if data == "" then d
    else ShowsAfter(g, host, Shows(g, host, d, c, data[0]), Step(host, c, data[0]), data[1..])
  }

  lemma {:induction false} ShowsAppend(g: Geometry, host: Host, d: Screenful, c: Content, a: string, b: string)
    requires c.Valid() && Extend(host)
    ensures ShowsAfter(g, host, d, c, a + b) == ShowsAfter(g, host, ShowsAfter(g, host, d, c, a), Run(host, c, a), b)
    decreases |a|
  {
    hide Shows, Step;
    if a == "" {
      assert a + b == b;
    } else {
      assert (a + b)[0] == a[0] && (a + b)[1..] == a[1..] + b;
      ShowsAppend(g, host, Shows(g, host, d, c, a[0]), Step(host, c, a[0]), a[1..], b);
    }
  }

  lemma ShowsSnoc(g: Geometry, host: Host, d: Screenful, c: Content, data: string, i: nat)
    requires c.Valid() && Extend(host) && i < |data|
    ensures ShowsAfter(g, host, d, c, data[..i + 1]) ==
      Shows(g, host, ShowsAfter(g, host, d, c, data[..i]), Run(host, c, data[..i]), data[i])
  {
    hide Shows, Step;
    ShowsAppend(g, host, d, c, data[..i], [data[i]]);
    assert data[..i + 1] == data[..i] + [data[i]];
    assert [data[i]][1..] == "";
  }

  /** What is promised with nothing known is promised whatever is. */
  lemma PromiseKept(g: Geometry, host: Host, display: Screenful, promised: Screenful, c: Content, r: char,
        now: Screenful)
    requires Promise(display, promised) && Promise(now, Shows(g, host, display, c, r))
    ensures Promise(now, Shows(g, host, promised, c, r))
  {
  }

  // ---- keys and answers ----

  /** A rune is typed, or the owner answers the first line that waits, if there is one. */
  datatype Event = Typed(r: char) | Reply

  function OneEvent(host: Host, c: Content, e: Event): (d: Content)
    requires c.Valid() && Extend(host)
    ensures d.Valid()
  {
    match e
    case Typed(r) => Step(host, c, r)
    case Reply => if c.Waiting() then Answered(host, c) else c
  }

  function AllEvents(host: Host, c: Content, events: seq<Event>): (d: Content)
    requires c.Valid() && Extend(host)
    ensures d.Valid()
    decreases |events|
  {
    if events == [] then c else AllEvents(host, OneEvent(host, c, events[0]), events[1..])
  }

  function EventShows(g: Geometry, host: Host, d: Screenful, c: Content, e: Event): Screenful {
    match e
    case Typed(r) => Shows(g, host, d, c, r)
    case Reply => if !c.Waiting() then d else if d == Left then Showing else Lost
  }

  function EventsShow(g: Geometry, host: Host, d: Screenful, c: Content, events: seq<Event>): Screenful
    requires c.Valid() && Extend(host)
    decreases |events|
  {
    if events == [] then d
    else EventsShow(g, host, EventShows(g, host, d, c, events[0]), OneEvent(host, c, events[0]), events[1..])
  }

  lemma {:induction false} EventsAppend(g: Geometry, host: Host, d: Screenful, c: Content, a: seq<Event>, e: Event)
    requires c.Valid() && Extend(host)
    ensures AllEvents(host, c, a + [e]) == OneEvent(host, AllEvents(host, c, a), e)
    ensures EventsShow(g, host, d, c, a + [e]) ==
      EventShows(g, host, EventsShow(g, host, d, c, a), AllEvents(host, c, a), e)
    decreases |a|
  {
    hide EventShows, OneEvent;
    if a == [] {
      assert a + [e] == [e] && [e][1..] == [];
    } else {
      assert (a + [e])[0] == a[0] && (a + [e])[1..] == a[1..] + [e];
      EventsAppend(g, host, EventShows(g, host, d, c, a[0]), OneEvent(host, c, a[0]), a[1..], e);
    }
  }

  /** Every line is answered before the next rune is taken. */
  ghost predicate InTurn(host: Host, c: Content, events: seq<Event>)
    requires c.Valid() && Extend(host)
    decreases |events|
  {
    events == [] ||
    ((events[0].Typed? ==> !c.Waiting()) && InTurn(host, OneEvent(host, c, events[0]), events[1..]))
  }

  /** Then the display is right whenever no line waits, if the prompt after Ctrl+D does not fill its last row. */
  lemma {:induction false} InTurnShows(g: Geometry, host: Host, c: Content, events: seq<Event>)
    requires c.Valid() && Extend(host) && InTurn(host, c, events) && |c.submitted| <= c.answered + 1
    requires !Filled(AdvanceAll(g, ORIGIN, PromptCells(host.eofPrompt)))
    ensures
      var d := AllEvents(host, c, events);
      EventsShow(g, host, if c.Waiting() then Left else Showing, c, events) == if d.Waiting() then Left else Showing
    decreases |events|
  {
    hide Step, Filled, AdvanceAll, PromptCells;
    if events != [] {
      if events[0].Typed? { OnlyEnterSubmits(host, c, events[0].r); }
      InTurnShows(g, host, OneEvent(host, c, events[0]), events[1..]);
    }
  }

  class LineEditor {
    const g: Geometry
    const host: Host
    /** The terminal before the first prompt. */
    ghost const start: Term

    var wire: string
    var prompt: string
    var buf: string
    var cursor: nat
    var history: seq<string>
    var histIdx: nat
    var histSave: string
    var esc: nat
    var csi: string
    var settled: bool
    var submitted: seq<string>
    var answered: nat

    /** The row the current prompt starts on, and what is shown above it. */
    ghost var top: nat
    ghost var above: Grid
    ghost var display: Screenful

    ghost function Screen(): Term
      reads this`wire
    {
      Replay(g, start, wire)
    }

    ghost function State(): Content
      reads this`buf, this`cursor, this`history, this`histIdx, this`histSave, this`esc, this`csi, this`submitted,
        this`answered
    {
      Content(buf, cursor, history, histIdx, histSave, esc, csi, submitted, answered)
    }

    ghost predicate Valid()
      reads this
    {
      && Usable(g, host, prompt, State()) && Screen().phase == Ground && (!settled ==> buf == "")
      && (display == Showing ==> OnScreen(g, Screen(), top, above, prompt, settled, buf, cursor))
      && (display == Left ==> Fresh(Screen()) && !settled)
    }

    /** An editor whose owner has just written the prompt on a fresh row. */
    constructor (g: Geometry, host: Host, prompt: string, ghost start: Term)
      requires g.Valid() && HostValid(g, host) && Honest(g, prompt) && Fresh(start)
      ensures Valid() && display == Showing && State() == Content("", 0, [], 0, "", 0, "", [], 0)
      ensures wire == PromptText(prompt) && this.host == host && this.g == g && this.start == start
    {
      hide Usable, OnScreen, Replay, HostValid, Honest, Fresh;
      this.g, this.host, this.start := g, host, start;
      this.prompt := prompt;
      wire := PromptText(prompt);
      buf, cursor, history, histIdx, histSave, esc, csi, settled := "", 0, [], 0, "", 0, "", false;
      submitted, answered, display := [], 0, Showing;
      top, above := start.row, start.grid;
      new;
      StartsUsable(g, host, prompt, start);
      OnScreenFacts(g, Screen(), top, above, prompt, false, "", 0);
    }

    method Echo(s: string)
      modifies this`wire
      ensures wire == old(wire) + s
      ensures Screen() == Replay(g, old(Screen()), s)
    {
      wire := wire + s;
      ReplayAppend(g, start, old(wire), s);
    }

    /** layout: where the cursor is before each rune of the line and after the last. */
    method Layout() returns (at: seq<Cell>)
      ensures |at| == |buf| + 1
      ensures forall i :: 0 <= i <= |buf| ==> at[i] == CellAt(g, PromptCells(prompt), buf, i)
    {
      hide AdvanceAll, PromptCells;
      var cells := ComputePromptCells(prompt);
      var p := ORIGIN;
      AdvanceNone(g, ORIGIN);
      for i := 0 to |cells|
        invariant p == AdvanceAll(g, ORIGIN, cells[..i])
      {
        AdvanceOneMore(g, ORIGIN, cells[..i], cells[i]);
        assert cells[..i] + [cells[i]] == cells[..i + 1];
        p := Advance(g, p, cells[i]);
      }
      assert cells[..|cells|] == cells && cells + buf[..0] == cells;
      at := [p];
      for i := 0 to |buf|
        invariant |at| == i + 1 && p == at[i]
        invariant forall k :: 0 <= k <= i ==> at[k] == CellAt(g, cells, buf, k)
      {
        AdvanceOneMore(g, ORIGIN, cells + buf[..i], buf[i]);
        assert cells + buf[..i] + [buf[i]] == cells + buf[..i + 1];
        p := Advance(g, p, buf[i]);
        at := at + [p];
      }
    }

    method At(i: nat) returns (p: Cell)
      requires i <= |buf|
      ensures p == CellAt(g, PromptCells(prompt), buf, i)
    {
      var at := Layout();
      p := at[i];
    }

    /** settle: the terminal's cursor is put where the layout has it. */
    method Settle()
      requires Valid() && display != Left
      modifies this`wire, this`settled
      ensures Valid() && settled && State() == old(State()) && old(wire) <= wire
    {
      hide Usable, OnScreen, Replay, CellAt, PromptCells, Calm;
      if settled {
        return;
      }
      UsableFacts(g, host, prompt, State());
      if display == Showing {
        SettleKeeps(g, host, prompt, State(), Screen(), top, above);
      }
      CalmText(g, " \r");
      CalmHere(g, Screen(), " \r");
      settled := true;
      var p := At(cursor);
      if p.col == 0 && p.row > 0 {
        Echo(" \r");
      }
    }

    /** refresh draws the prompt and line again, the cursor being at from. */
    method Refresh(from: Cell, ghost c: Content)
      requires Usable(g, host, prompt, c) && Screen().phase == Ground && display != Left
      requires display == Showing ==> OnScreen(g, Screen(), top, above, prompt, true, c.buf, c.cursor)
      requires Usable(g, host, prompt, State())
      requires from == CellAt(g, PromptCells(prompt), c.buf, c.cursor)
      modifies this`wire, this`settled
      ensures Valid() && settled && State() == old(State()) && old(wire) <= wire
    {
      hide Usable, OnScreen, Replay, Redraw, Tail, CellAt, PromptCells, PromptText, MoveCursor, Calm;
      UsableFacts(g, host, prompt, State());
      if display == Showing {
        RefreshKeeps(g, host, prompt, c, State(), Screen(), top, above);
      }
      RedrawCalm(g, prompt, buf, cursor, from);
      CalmHere(g, Screen(), Redraw(g, prompt, buf, cursor, from));
      settled := true;
      var out := ComputeRedraw(from);
      Echo(out);
    }

    method ComputeRedraw(from: Cell) returns (s: string)
      requires cursor <= |buf|
      ensures s == Redraw(g, prompt, buf, cursor, from)
    {
      var tail := ComputeTail();
      s := MoveCursor(from, Cell(0, from.col)) + ERASE + PromptText(prompt) + tail;
    }

    method ComputeTail() returns (s: string)
      requires cursor <= |buf|
      ensures s == Tail(g, PromptCells(prompt), buf, cursor)
    {
      var at := Layout();
      s := buf;
      var end := at[|buf|];
      if end.col == 0 && end.row > 0 {
        s := s + " \r";
      }
      s := s + MoveCursor(end, at[cursor]);
    }

    /** change gives the line a new content and draws the result. */
    method Change(ghost d: Content, newBuf: string, newCursor: nat)
      requires Valid() && settled
      requires d == State().(buf := newBuf, cursor := newCursor) && Usable(g, host, prompt, d)
      modifies this`buf, this`cursor, this`wire, this`settled
      ensures Valid() && settled && State() == d && old(wire) <= wire
    {
      hide Usable, OnScreen, Replay, CellAt, PromptCells;
      UsableFacts(g, host, prompt, State());
      ghost var c := State();
      var from := At(cursor);
      buf, cursor := newBuf, newCursor;
      Refresh(from, c);
    }

    /** moveTo puts the cursor before rune i of the line. */
    method MoveTo(i: nat)
      requires Valid() && settled && i <= |buf|
      modifies this`cursor, this`wire
      ensures Valid() && State() == old(State()).(cursor := i) && old(wire) <= wire
    {
      hide Usable, OnScreen, Replay, CellAt, PromptCells, MoveCursor, Calm;
      UsableFacts(g, host, prompt, State());
      MoveUsable(g, host, prompt, State(), i);
      if display == Showing {
        MoveKeeps(g, host, prompt, State(), Screen(), top, above, i);
      }
      var at := Layout();
      var s := MoveCursor(at[cursor], at[i]);
      MoveCalm(g, at[cursor], at[i]);
      CalmHere(g, Screen(), s);
      Echo(s);
      cursor := i;
    }

    /** insert puts rs into the line at the cursor. */
    method Insert(rs: string)
      requires Valid() && settled && g.AllPrintable(rs)
      modifies this`buf, this`cursor, this`wire, this`settled
      ensures Valid() && settled && old(wire) <= wire
      ensures State() == Inserted(old(State()), rs)
    {
      hide Usable, OnScreen, Replay, CellAt, PromptCells, Calm;
      UsableFacts(g, host, prompt, State());
      InsertUsable(g, host, prompt, State(), rs);
      if cursor < |buf| {
        Change(Inserted(State(), rs), buf[..cursor] + rs + buf[cursor..], cursor + |rs|);
        return;
      }
      if display == Showing {
        AppendKeeps(g, host, prompt, State(), Screen(), top, above, rs);
      }
      AppendCalm(g, Screen(), rs);
      AppendIsInsert(State(), rs);
      var s := rs;
      buf := buf + rs;
      cursor := cursor + |rs|;
      var end := At(cursor);
      if end.col == 0 && end.row > 0 {
        s := s + " \r";
      }
      Echo(s);
    }

    method Reset()
      modifies this`buf, this`cursor, this`histIdx, this`histSave, this`settled
      ensures State() == Line.Reset(old(State())) && !settled
    {
      buf, cursor, histIdx, histSave, settled := "", 0, |history|, "", false;
    }

    method AddHistory(line: string)
      modifies this`history, this`histIdx
      ensures State() == Remembered(old(State()), line)
    {
      if line == "" {
        return;
      }
      var n := |history|;
      if n > 0 && history[n - 1] == line {
        return;
      }
      history := history + [line];
      histIdx := |history|;
    }

    /** The owner writes text and the next prompt. When the text ends on a fresh row the display is right exactly when
        nothing is typed. */
    method OwnerPrompts(text: string, p: string)
      requires Usable(g, host, p, State()) && Screen().phase == Ground && Calm(g, text) && (!settled ==> buf == "")
      modifies this`wire, this`prompt, this`top, this`above, this`display
      ensures Valid() && old(wire) <= wire && prompt == p && Screen() == Replay(g, old(Screen()), text + PromptText(p))
      ensures
        var t := Replay(g, old(Screen()), text);
        display == (if Fresh(t) && NothingTyped(g, p, settled, buf, cursor) then Showing else Lost) &&
        (Fresh(t) ==> (display == Showing <==> OnScreen(g, Screen(), t.row, t.grid, p, settled, buf, cursor)))
    {
      hide Usable, OnScreen, Replay, Fresh, Calm, PromptText, NothingTyped, Honest;
      UsableFacts(g, host, p, State());
      ghost var t := Replay(g, Screen(), text);
      if Fresh(t) {
        LatePrompt(g, t, p, settled, buf, cursor);
      }
      PromptCalm(g, p);
      CalmHere(g, Screen(), text);
      CalmHere(g, t, PromptText(p));
      ReplayAppend(g, Screen(), text, PromptText(p));
      prompt := p;
      top, above := t.row, t.grid;
      display := if Fresh(t) && NothingTyped(g, p, settled, buf, cursor) then Showing else Lost;
      Echo(text + PromptText(p));
    }

    /** The cursor goes to the line's end, and mark and a new line after it. */
    method Leave(mark: string)
      requires Valid() && settled && g.AllPrintable(mark)
      modifies this`wire, this`cursor
      ensures Usable(g, host, prompt, State()) && Screen().phase == Ground && old(wire) <= wire
      ensures State() == old(State()).(cursor := |buf|)
      ensures display == Showing ==> Fresh(Screen())
    {
      hide Usable, OnScreen, Replay, Fresh, Calm;
      UsableFacts(g, host, prompt, State());
      MoveTo(|buf|);
      if display == Showing {
        LeaveLine(g, host, prompt, State(), Screen(), top, above, mark);
      }
      PrintableCalm(g, mark);
      CalmText(g, "\r\n");
      CalmAppend(g, mark, "\r\n");
      CalmHere(g, Screen(), mark + "\r\n");
      Echo(mark + "\r\n");
    }

    /** Enter: the line goes to Submit, and waits for its owner's answer. */
    method Enter()
      requires Valid() && settled
      modifies this`wire, this`buf, this`cursor, this`histIdx, this`histSave, this`settled, this`submitted, this`display
      ensures Valid() && old(wire) <= wire && State() == Submitted(old(State()))
      ensures submitted == old(submitted) + [old(buf)] && buf == "" && cursor == 0
      ensures !settled && display == if old(display) == Showing then Left else Lost
    {
      hide Usable, OnScreen, Replay, HostValid, Honest, Fresh, Extend;
      UsableFacts(g, host, prompt, State());
      Leave("");
      var line := buf;
      ResetUsable(g, host, prompt, State(), prompt);
      Reset();
      submitted := submitted + [line];
      display := if display == Showing then Left else Lost;
    }

    /** The owner answers the first line that waits: it remembers it, writes what came of it, and prompts. */
    method Answer()
      requires Valid() && State().Waiting()
      modifies this`wire, this`prompt, this`top, this`above, this`display, this`history, this`histIdx, this`answered
      ensures Valid() && old(wire) <= wire && State() == Answered(host, old(State()))
      ensures old(display) == Left ==> display == Showing
      ensures
        var line := submitted[old(answered)];
        var t := Replay(g, old(Screen()), host.submitText(line));
        prompt == host.submitPrompt(line) &&
        (Fresh(t) ==>
          (OnScreen(g, Screen(), t.row, t.grid, prompt, settled, buf, cursor) <==>
           NothingTyped(g, prompt, settled, buf, cursor)) &&
          (display == Showing <==> NothingTyped(g, prompt, settled, buf, cursor)))
    {
      hide Usable, OnScreen, Replay, HostValid, Fresh, Calm, Remembered, Honest, AllLinesPrintable;
      UsableFacts(g, host, prompt, State());
      var line := submitted[answered];
      HostSubmit(g, host, prompt, State(), Screen(), line);
      AnswerUsable(g, host, prompt, State(), host.submitPrompt(line));
      if host.remembers(line) {
        AddHistory(line);
      }
      answered := answered + 1;
      OwnerPrompts(host.submitText(line), host.submitPrompt(line));
    }

    /** Ctrl+C. */
    method Interrupt()
      requires Valid() && settled
      modifies this`wire, this`buf, this`cursor, this`histIdx, this`histSave, this`settled, this`prompt, this`top,
        this`above, this`display
      ensures Valid() && old(wire) <= wire
      ensures State() == Line.Reset(old(State())) && prompt == host.interruptPrompt
      ensures !settled && (old(display) == Showing ==> display == Showing)
    {
      hide Usable, OnScreen, Replay, HostValid, Honest, Fresh, Calm;
      UsableFacts(g, host, prompt, State());
      CaretPrintable(g);
      Leave("^C");
      HostInterrupt(g, host, prompt, State(), Screen());
      ResetUsable(g, host, prompt, State(), host.interruptPrompt);
      Reset();
      OwnerPrompts(host.interruptText, host.interruptPrompt);
    }

    /** Ctrl+D at an empty line: the display stays right exactly when the next prompt does not fill its last row. */
    method Eof()
      requires Valid() && settled
      modifies this`wire, this`prompt, this`top, this`above, this`display
      ensures Valid() && old(wire) <= wire && State() == old(State())
      ensures
        if buf != "" then display == old(display) && prompt == old(prompt)
        else
          prompt == host.eofPrompt &&
          (old(display) == Showing ==>
            (display == Showing <==> !Filled(AdvanceAll(g, ORIGIN, PromptCells(host.eofPrompt)))))
    {
      hide Usable, OnScreen, Replay, HostValid, Honest, LastRow, Fresh, Filled, AdvanceAll, Calm, PromptCells;
      UsableFacts(g, host, prompt, State());
      if buf == "" {
        HostEof(g, host, prompt, State());
        if display == Showing {
          OnLastRow(g, Screen(), top, above, prompt);
        }
        OwnerPrompts(host.eofText, host.eofPrompt);
      }
    }

    /** Ctrl+L: the owner clears the screen and prompts, and the line is drawn after it (Redisplay). Whatever was on
        the screen, the display is right then. */
    method ClearScreen()
      requires Valid() && settled
      modifies this`wire, this`prompt, this`top, this`above, this`display
      ensures Valid() && display == Showing
      ensures old(wire) <= wire && State() == old(State()) && prompt == host.clearPrompt
    {
      hide Usable, OnScreen, Replay, HostValid, Honest, Fresh, Tail, PromptCells;
      UsableFacts(g, host, prompt, State());
      HostClear(g, host, prompt, State(), Screen());
      PromptKeeps(g, host, host.clearPrompt, State(), Screen(), host.clearText);
      prompt := host.clearPrompt;
      top, above := Replay(g, Screen(), host.clearText).row, Replay(g, Screen(), host.clearText).grid;
      var tail := ComputeTail();
      Echo(host.clearText + PromptText(prompt) + tail);
      display := Showing;
      OnScreenFacts(g, Screen(), top, above, prompt, true, buf, cursor);
    }

    /** An escape sequence, its introducer left out. */
    method HandleCSI(s: string)
      requires Valid() && settled
      modifies this`buf, this`cursor, this`histIdx, this`histSave, this`wire, this`settled
      ensures Valid() && settled && old(wire) <= wire
      ensures State() == Sequence(old(State()), s)
    {
      hide Usable, OnScreen, Replay;
      ghost var c := State();
      UsableFacts(g, host, prompt, c);
      ghost var d := Sequence(c, s);
      SequenceUsable(g, host, prompt, c, s);
      if s == "A" || s == "B" {
        History(s == "A");
      } else if s == "C" {
        if cursor < |buf| {
          MoveTo(cursor + 1);
        }
      } else if s == "D" {
        if cursor > 0 {
          MoveTo(cursor - 1);
        }
      } else if s == "H" {
        MoveTo(0);
      } else if s == "F" {
        MoveTo(|buf|);
      } else if s == "3~" {
        if cursor < |buf| {
          Change(d, buf[..cursor] + buf[cursor + 1..], cursor);
        }
      }
    }

    /** Up to the previous history line, or down to the next. */
    method History(up: bool)
      requires Valid() && settled
      modifies this`buf, this`cursor, this`histIdx, this`histSave, this`wire, this`settled
      ensures Valid() && settled && old(wire) <= wire
      ensures State() == if up then HistoryUp(old(State())) else HistoryDown(old(State()))
    {
      hide Usable, OnScreen, Replay;
      ghost var c := State();
      UsableFacts(g, host, prompt, c);
      ghost var d := if up then HistoryUp(c) else HistoryDown(c);
      SequenceUsable(g, host, prompt, c, if up then "A" else "B");
      HistoryUsable(g, host, prompt, c, d.histIdx, d.histSave);
      if up && histIdx > 0 {
        if histIdx == |history| {
          histSave := buf;
        }
        histIdx := histIdx - 1;
        Change(d, history[histIdx], |history[histIdx]|);
      } else if !up && histIdx < |history| {
        histIdx := histIdx + 1;
        var line := if histIdx == |history| then histSave else history[histIdx];
        Change(d, line, |line|);
      }
    }

    /** The start of the word before the cursor. */
    method FindWord() returns (start: nat)
      requires State().Valid()
      ensures start == WordStart(State())
    {
      start := cursor;
      while start > 0 && buf[start - 1] != ' '
        invariant start <= cursor
        invariant BackTo(buf, cursor, Blank) == BackTo(buf, start, Blank)
      {
        start := start - 1;
      }
    }

    /** What a single candidate adds. */
    method OnlyOne(word: string, candidates: seq<string>) returns (completion: string)
      requires |candidates| == 1 && forall s :: s in candidates ==> word <= s
      ensures completion == Addition(word, candidates)
    {
      hide CommonBytes, Encode, Decode, Addition;
      AdditionIs(word, candidates);
      completion := candidates[0][|word|..];
      if candidates[0] == "" || candidates[0][|candidates[0]| - 1] != '/' {
        completion := completion + " ";
      }
    }

    /** Tab. */
    method CompleteWord()
      requires Valid() && settled
      modifies this`buf, this`cursor, this`wire, this`settled, this`top, this`above
      ensures Valid() && settled && old(wire) <= wire
      ensures State() == Completed(host, old(State()))
    {
      hide Usable, OnScreen, Replay, AllLinesPrintable, WordStart, CommonAll, Encode, Decode, IsSpace, HostValid,
        Inserted, Extend, Calm, Fresh, Addition, CommonBytes;
      ghost var c := State();
      UsableFacts(g, host, prompt, c);
      CompletionPrintable(g, host, prompt, c);
      InsertNothing(c);
      var start := FindWord();
      var word := buf[start..cursor];
      var candidates := host.complete(word, forall i :: 0 <= i < start ==> IsSpace(buf[i]));
      assert candidates == Candidates(host, c);
      ExtendCandidates(host, c);
      AdditionIs(word, candidates);
      if |candidates| == 0 {
        return;
      }
      if |candidates| == 1 {
        var completion := OnlyOne(word, candidates);
        Insert(completion);
        return;
      }
      var common := LongestCommon(candidates);
      if |common| > |Encode(word)| {
        Insert(Decode(common[|Encode(word)|..]));
        return;
      }
      List(candidates);
    }

    method LongestCommon(candidates: seq<string>) returns (common: Bytes)
      requires candidates != []
      ensures common == CommonBytes(candidates[0], candidates[1..])
    {
      hide Encode;
      common := Encode(candidates[0]);
      ghost var rest := EncodeAll(candidates[1..]);
      for i := 1 to |candidates|
        invariant CommonAll(common, rest[i - 1..]) == CommonBytes(candidates[0], candidates[1..])
      {
        var c := Encode(candidates[i]);
        ghost var all := rest[i - 1..];
        assert all[0] == c && all[1..] == rest[i..];
        ghost var before := common;
        while !(common <= c)
          invariant Common(common, c) == Common(before, c)
          decreases |common|
        {
          CommonShortens(common, c);
          common := common[..|common| - 1];
        }
        CommonShortens(common, c);
      }
      assert rest[|rest|..] == [];
    }

    /** The candidates are listed under the line, and the prompt and line drawn again below them. */
    method List(candidates: seq<string>)
      requires Valid() && settled && AllLinesPrintable(g, candidates)
      modifies this`wire, this`cursor, this`top, this`above
      ensures Valid() && old(wire) <= wire && State() == old(State())
      ensures
        var listed := "\r\n" + JoinCandidates(candidates) + "\r\n" + PromptText(prompt);
        EndsWith(wire, listed + Tail(g, PromptCells(prompt), buf, cursor))
    {
      hide Usable, OnScreen, Replay, Fresh, Tail, PromptCells, AllLinesPrintable, Calm, Honest;
      ghost var c := State();
      UsableFacts(g, host, prompt, c);
      JoinPrintable(g, candidates);
      var saved := cursor;
      MoveTo(|buf|);
      cursor := saved;
      assert State() == c;
      var text := "\r\n" + JoinCandidates(candidates) + "\r\n";
      if display == Showing {
        ListingIsFresh(g, host, prompt, c, Screen(), top, above, JoinCandidates(candidates));
        PromptKeeps(g, host, prompt, c, Screen(), text);
        top, above := Replay(g, Screen(), text).row, Replay(g, Screen(), text).grid;
      }
      ListingCalm(g, JoinCandidates(candidates), prompt, buf, cursor);
      CalmHere(g, Screen(), text + PromptText(prompt) + Tail(g, PromptCells(prompt), buf, cursor));
      var tail := ComputeTail();
      Echo(text + PromptText(prompt) + tail);
    }

    /** One rune that edits the line or moves in it. */
    method EditKey(r: char)
      requires Valid() && settled && (r < ' ' || r == DEL || g.Printable(r))
      requires r != ESC && r != '\r' && r != '\n' && r != CTRL_C && r != CTRL_D && r != CTRL_L
      modifies this`buf, this`cursor, this`wire, this`settled, this`top, this`above
      ensures Valid() && settled && old(wire) <= wire && State() == Key(host, old(State()), r)
    {
      hide Usable, OnScreen, Replay, HostValid, Completed, Calm, Fresh;
      ghost var c := State();
      UsableFacts(g, host, prompt, c);
      if r == DEL || r == BACKSPACE {
        if cursor > 0 {
          RemoveUsable(g, host, prompt, c, cursor - 1, cursor);
          Change(Removed(c, cursor - 1, cursor), buf[..cursor - 1] + buf[cursor..], cursor - 1);
        }
      } else if r == CTRL_A {
        MoveTo(0);
      } else if r == CTRL_E {
        MoveTo(|buf|);
      } else if r == CTRL_U {
        Kill(0, cursor);
      } else if r == CTRL_K {
        Kill(cursor, |buf|);
      } else if r == CTRL_W {
        var i := WordBack();
        Kill(i, cursor);
      } else if r == '\t' {
        CompleteWord();
      } else if r >= ' ' {
        Insert([r]);
      }
    }

    /** One rune outside an escape sequence. */
    method Press(r: char)
      requires Valid() && settled && (r < ' ' || r == DEL || g.Printable(r))
      modifies this
      ensures Valid() && old(wire) <= wire && State() == Key(host, old(State()), r)
      ensures Promise(display, KeyShows(g, host, old(display), old(State()), r))
      ensures !settled <==> r == '\r' || r == '\n' || r == CTRL_C
    {
      hide Usable, OnScreen, Replay, HostValid, Completed, Submitted, Calm, Fresh, AdvanceAll, PromptCells;
      ghost var c := State();
      UsableFacts(g, host, prompt, c);
      if r == ESC {
        EscapeUsable(g, host, prompt, c, 1, csi);
        esc := 1;
      } else if r == '\r' || r == '\n' {
        Enter();
      } else if r == CTRL_C {
        Interrupt();
      } else if r == CTRL_D {
        Eof();
      } else if r == CTRL_L {
        ClearScreen();
      } else {
        EditKey(r);
      }
    }

    /** Runes i to j are cut out, even when there are none, and the line is drawn again. */
    method Kill(i: nat, j: nat)
      requires Valid() && settled && i <= j <= |buf|
      modifies this`buf, this`cursor, this`wire, this`settled
      ensures Valid() && settled && old(wire) <= wire
      ensures State() == Removed(old(State()), i, j)
    {
      hide Usable, OnScreen, Replay;
      RemoveUsable(g, host, prompt, State(), i, j);
      Change(Removed(State(), i, j), buf[..i] + buf[j..], i);
    }

    /** Where Ctrl+W deletes from: the start of the word before the blanks before the cursor. */
    method WordBack() returns (i: nat)
      requires cursor <= |buf|
      ensures i == BackTo(buf, BackTo(buf, cursor, NotBlank), Blank) <= cursor
    {
      i := cursor;
      while i > 0 && buf[i - 1] == ' '
        invariant i <= cursor
        invariant BackTo(buf, cursor, NotBlank) == BackTo(buf, i, NotBlank)
      {
        i := i - 1;
      }
      ghost var j := i;
      while i > 0 && buf[i - 1] != ' '
        invariant i <= j
        invariant BackTo(buf, j, Blank) == BackTo(buf, i, Blank)
      {
        i := i - 1;
      }
    }

    /** One rune inside an escape sequence. */
    method InSequence(r: char)
      requires Valid() && settled && esc == 2
      modifies this`buf, this`cursor, this`histIdx, this`histSave, this`wire, this`settled, this`esc, this`csi
      ensures Valid() && settled && old(wire) <= wire && State() == Step(host, old(State()), r)
    {
      hide Usable, OnScreen, Replay, HostValid, Key, Sequence, Calm, Fresh;
      ghost var c := State();
      UsableFacts(g, host, prompt, c);
      if 'A' <= r <= 'Z' || r == '~' {
        HandleCSI(csi + [r]);
        EscapeUsable(g, host, prompt, State(), 0, csi);
        esc := 0;
      } else {
        EscapeUsable(g, host, prompt, c, 2, csi + [r]);
        csi := csi + [r];
      }
    }

    /** One rune of input. */
    method Take(r: char)
      requires Valid() && (r < ' ' || r == DEL || g.Printable(r))
      modifies this
      ensures Valid() && old(wire) <= wire && State() == Step(host, old(State()), r)
      ensures Promise(display, Shows(g, host, old(display), old(State()), r))
      ensures !settled <==> EndsLineAt(old(State()), r)
    {
      hide Usable, OnScreen, Replay, HostValid, Key, Sequence, Calm, Fresh, AdvanceAll, PromptCells, Filled;
      UsableFacts(g, host, prompt, State());
      ghost var c := State();
      display := if display == Left then Lost else display;
      Settle();
      if esc == 1 {
        if r == '[' || r == 'O' {
          EscapeUsable(g, host, prompt, c, 2, "");
          esc, csi := 2, "";
          return;
        }
        EscapeUsable(g, host, prompt, c, 0, csi);
        esc := 0;
      } else if esc == 2 {
        InSequence(r);
        return;
      }
      Press(r);
    }

    /** Input: the line is what its keys make of it; and as long as the prompt of every line comes before the next
        rune is taken, the screen shows the prompt and the line after every rune. */
    method Input(data: string)
      requires Valid() && Typable(g, data)
      modifies this
      ensures Valid() && old(wire) <= wire && State() == Run(host, old(State()), data)
      ensures Promise(display, ShowsAfter(g, host, old(display), old(State()), data))
      ensures
        var n := |data| - 1;
        if data == "" then settled == old(settled)
        else !settled <==> EndsLineAt(Run(host, old(State()), data[..n]), data[n])
    {
      hide Usable, OnScreen, Replay, HostValid, Step, Shows;
      UsableFacts(g, host, prompt, State());
      ghost var c, before := State(), display;
      for i := 0 to |data|
        invariant Valid() && old(wire) <= wire
        invariant State() == Run(host, c, data[..i])
        invariant Promise(display, ShowsAfter(g, host, before, c, data[..i]))
        invariant if i == 0 then settled == old(settled)
                  else !settled <==> EndsLineAt(Run(host, c, data[..i - 1]), data[i - 1])
      {
        RunSnoc(host, c, data, i);
        ShowsSnoc(g, host, before, c, data, i);
        ghost var was := display;
        Take(data[i]);
        PromiseKept(g, host, was, ShowsAfter(g, host, before, c, data[..i]), Run(host, c, data[..i]), data[i], display);
      }
      assert data[..|data|] == data;
    }

    /** Keys and the owner's answers in any order. */
    method Serve(events: seq<Event>)
      requires Valid() && forall e :: e in events && e.Typed? ==> Typable(g, [e.r])
      modifies this
      ensures Valid() && old(wire) <= wire && State() == AllEvents(host, old(State()), events)
      ensures Promise(display, EventsShow(g, host, old(display), old(State()), events))
    {
      hide Usable, OnScreen, Replay, HostValid, Step, Shows, Answered, NothingTyped;
      UsableFacts(g, host, prompt, State());
      ghost var c, before := State(), display;
      for i := 0 to |events|
        invariant Valid() && old(wire) <= wire
        invariant State() == AllEvents(host, c, events[..i])
        invariant Promise(display, EventsShow(g, host, before, c, events[..i]))
      {
        assert events[..i + 1] == events[..i] + [events[i]];
        EventsAppend(g, host, before, c, events[..i], events[i]);
        ghost var was, promised, d := display, EventsShow(g, host, before, c, events[..i]), State();
        match events[i] {
          case Typed(r) =>
            assert events[i] in events && [r][0] == r;
            Take(r);
            PromiseKept(g, host, was, promised, d, r, display);
          case Reply =>
            if answered < |submitted| {
              Answer();
            }
        }
      }
      assert events[..|events|] == events;
    }
  }

  // ---- a paste ----

  /** ls and Enter, then pwd, taken before ls is answered: wherever its prompt then starts a row, it does not show the
      line. */
  lemma PasteIsLost(g: Geometry, host: Host, c: Content, t: Term, prompt: string, settled: bool)
    requires c.Valid() && Extend(host) && c.esc == 0 && g.Valid() && Fresh(t) && Honest(g, prompt)
    ensures
      var d := Run(host, c, "ls\rpwd");
      && d.buf == "pwd" && d.cursor == 3 && d.Waiting()
      && !OnScreen(g, Replay(g, t, PromptText(prompt)), t.row, t.grid, prompt, settled, d.buf, d.cursor)
  {
    hide Replay, PromptText, PromptCells, Shown, Prompted, Fresh, Honest, Blanks;
    RunAppend(host, c, "ls", "\rpwd");
    RunAppend(host, Run(host, c, "ls"), "\r", "pwd");
    assert "ls" + "\rpwd" == "ls\rpwd" && "\r" + "pwd" == "\rpwd";
    TypingInserts(host, c, "ls");
    var left := Run(host, Run(host, c, "ls"), "\r");
    RunOne(host, Run(host, c, "ls"), '\r');
    assert "\r" == ['\r'];
    TypingInserts(host, left, "pwd");
    assert "" + "pwd" + "" == "pwd";
    assert g.AllPrintable("pwd") by { assert g.width('p') == 1 && g.width('w') == 1 && g.width('d') == 1; }
    if settled {
      LatePrompt(g, t, prompt, true, "pwd", 3);
    }
  }
}
