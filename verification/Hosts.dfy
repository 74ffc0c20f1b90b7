/** The page around the line editor (web/session.go): what its callbacks write is what the editor asks of its owner. */
module Hosts {
  import opened Terminal
  import opened Cells
  import opened Prompt
  import opened Display
  import opened Line
  import opened LineEditor
  import opened Utf8

  const NEWLINE: string := "\r\n"
  const CLEAR: string := [ESC, '[', '2', 'J', ESC, '[', 'H']

  /** What a command wrote: whole lines of text. */
  function Output(lines: seq<string>): string {
    if lines == [] then "" else lines[0] + NEWLINE + Output(lines[1..])
  }

  ghost predicate WholeLines(g: Geometry, s: string) {
    exists lines :: AllLinesPrintable(g, lines) && s == Output(lines)
  }

  /** A prompt of text, colours and titles. */
  ghost predicate OfPieces(g: Geometry, prompt: string) {
    exists ps: seq<Piece> :: (forall p :: p in ps ==> p.Valid(g)) && prompt == Render(ps)
  }

  /** The page, which queues submitted lines and answers them in order, each when Input has returned or while it
      still goes on: what the line's command writes, and a prompt. In its other callbacks it writes nothing but the
      prompt after Ctrl+C, a new line after Ctrl+D, and for Ctrl+L it clears the screen. */
  ghost predicate Page(g: Geometry, host: Host) {
    && host.interruptText == "" && host.eofText == NEWLINE && host.clearText == CLEAR
    && (forall line: string :: WholeLines(g, host.submitText(line)) && OfPieces(g, host.submitPrompt(line)))
    && OfPieces(g, host.interruptPrompt) && OfPieces(g, host.clearPrompt) && OfPieces(g, host.eofPrompt)
  }

  lemma NewLineFromLastRow(g: Geometry, t: Term)
    requires LastRow(t)
    ensures Fresh(Replay(g, t, NEWLINE))
  {
    ReplayTwo(g, t, '\r', '\n');
    assert NEWLINE == ['\r', '\n'];
  }

  lemma LineIsFresh(g: Geometry, t: Term, line: string)
    requires g.Valid() && g.AllPrintable(line) && Fresh(t)
    ensures Fresh(Replay(g, t, line + NEWLINE))
  {
    assert Drawn(g, t, t.row, t.grid, "");
    DrawMore(g, t, t.row, t.grid, "", line);
    assert "" + line == line;
    NewLineIsFresh(g, Replay(g, t, line), t.row, t.grid, line);
    ReplayAppend(g, t, line, NEWLINE);
  }

  lemma {:induction false} OutputIsFresh(g: Geometry, t: Term, lines: seq<string>)
    requires g.Valid() && AllLinesPrintable(g, lines) && Fresh(t)
    ensures Fresh(Replay(g, t, Output(lines)))
    decreases |lines|
  {
    hide Fresh;
    if lines != [] {
      LineIsFresh(g, t, lines[0]);
      ReplayAppend(g, t, lines[0] + NEWLINE, Output(lines[1..]));
      OutputIsFresh(g, Replay(g, t, lines[0] + NEWLINE), lines[1..]);
    }
  }

  lemma PiecesHonest(g: Geometry, prompt: string)
    requires OfPieces(g, prompt)
    ensures Honest(g, prompt)
  {
    var ps: seq<Piece> :| (forall p :: p in ps ==> p.Valid(g)) && prompt == Render(ps);
    PiecesAreHonest(g, ps);
  }

  lemma {:induction false} OutputCalm(g: Geometry, lines: seq<string>)
    requires AllLinesPrintable(g, lines)
    ensures Calm(g, Output(lines))
    decreases |lines|
  {
    hide Calm;
    if lines == [] {
      CalmText(g, "");
    } else {
      PrintableCalm(g, lines[0]);
      CalmText(g, NEWLINE);
      CalmAppend(g, lines[0], NEWLINE);
      OutputCalm(g, lines[1..]);
      CalmAppend(g, lines[0] + NEWLINE, Output(lines[1..]));
    }
  }

  /** The page meets what the editor needs exactly when its completions extend the word and can be shown. */
  lemma PageIsValid(g: Geometry, host: Host)
    requires g.Valid() && Page(g, host) && g.Printable(REPLACEMENT)
    ensures HostValid(g, host) <==>
      && Extend(host)
      && forall word: string, first: bool, s: string :: s in host.complete(word, first) ==> g.AllPrintable(s)
  {
    hide Fresh, Replay, LastRow, Honest, OfPieces, Output, Calm;
    forall t: Term, line: string | Fresh(t) ensures Fresh(Replay(g, t, host.submitText(line))) {
      var lines :| AllLinesPrintable(g, lines) && host.submitText(line) == Output(lines);
      OutputIsFresh(g, t, lines);
    }
    forall line: string ensures Calm(g, host.submitText(line)) && Honest(g, host.submitPrompt(line)) {
      var lines :| AllLinesPrintable(g, lines) && host.submitText(line) == Output(lines);
      OutputCalm(g, lines);
      PiecesHonest(g, host.submitPrompt(line));
    }
    forall t: Term | Fresh(t) ensures Fresh(Replay(g, t, "")) {
      ReplayNothing(g, t);
    }
    forall t: Term | t.phase == Ground ensures Fresh(Replay(g, t, CLEAR)) {
      ClearTextIsFresh(g, t);
    }
    forall t: Term | LastRow(t) ensures Fresh(Replay(g, t, NEWLINE)) {
      NewLineFromLastRow(g, t);
    }
    CalmText(g, "");
    CalmText(g, NEWLINE);
    PiecesHonest(g, host.interruptPrompt);
    PiecesHonest(g, host.clearPrompt);
    PiecesHonest(g, host.eofPrompt);
  }

  // ---- lines that are queued ----

  /** Lines submitted together are answered one after another. From a screen that shows a prompt and no line, the next
      prompt starts on a fresh row exactly when the command wrote something, or the row was fresh already. */
  lemma QueuedAnswer(g: Geometry, t: Term, top: nat, above: Grid, cells: string, lines: seq<string>)
    requires g.Valid() && g.AllPrintable(cells) && Prompted(g, t, top, above, cells) && AllLinesPrintable(g, lines)
    ensures Fresh(Replay(g, t, Output(lines))) <==> lines != [] || Fresh(t)
  {
    hide Fresh, Prompted, Drawn;
    if lines == [] {
      ReplayNothing(g, t);
    } else {
      FirstLineIsFresh(g, t, top, above, cells, lines[0]);
      ReplayAppend(g, t, lines[0] + NEWLINE, Output(lines[1..]));
      OutputIsFresh(g, Replay(g, t, lines[0] + NEWLINE), lines[1..]);
    }
  }

  lemma FirstLineIsFresh(g: Geometry, t: Term, top: nat, above: Grid, cells: string, line: string)
    requires g.Valid() && g.AllPrintable(cells) && Prompted(g, t, top, above, cells) && g.AllPrintable(line)
    ensures Fresh(Replay(g, t, line + NEWLINE))
  {
    DrawMore(g, t, top, above, cells, line);
    NewLineIsFresh(g, Replay(g, t, line), top, above, cells + line);
    ReplayAppend(g, t, line, NEWLINE);
  }

  /** The console (console/console.go) has room for one line. What it runs, of the lines submitted from one read: */
  function ConsoleRuns(before: seq<string>, after: seq<string>): seq<string>
    requires before <= after
  {
    if after == before then [] else [after[|after| - 1]]
  }

  /** It runs what was submitted exactly when that is one line at most. */
  lemma ConsoleRunsAll(before: seq<string>, after: seq<string>)
    requires before <= after
    ensures ConsoleRuns(before, after) == after[|before|..] <==> |after| <= |before| + 1
  {
    var more := after[|before|..];
    assert |more| == |after| - |before|;
    if |more| == 1 {
      assert more[0] == after[|after| - 1];
    }
  }

  /** Two lines pasted: the first is never run. */
  lemma ConsolePaste(host: Host, c: Content)
    requires c.Valid() && Extend(host) && c.esc == 0 && c.buf == ""
    ensures
      var d := Run(host, c, "ls\rpwd\r");
      c.submitted <= d.submitted && d.submitted[|c.submitted|..] == ["ls", "pwd"] &&
      ConsoleRuns(c.submitted, d.submitted) == ["pwd"]
  {
    hide Run, Inserted;
    var c1 := EnteredLine(host, c, "ls");
    var c2 := EnteredLine(host, c1, "pwd");
    RunAppend(host, c, "ls\r", "pwd\r");
    assert "ls\r" + "pwd\r" == "ls\rpwd\r" && "ls" + "\r" == "ls\r" && "pwd" + "\r" == "pwd\r";
    assert c2.submitted == c.submitted + ["ls", "pwd"];
  }

  /** A line typed on an empty one, and Enter. */
  lemma EnteredLine(host: Host, c: Content, line: string) returns (d: Content)
    requires c.Valid() && Extend(host) && c.esc == 0 && c.buf == ""
    requires forall i :: 0 <= i < |line| ==> line[i] >= ' ' && line[i] != DEL
    ensures d == Run(host, c, line + "\r") && d.submitted == c.submitted + [line] && d.buf == "" && d.esc == 0
  {
    TypingInserts(host, c, line);
    var typed := Run(host, c, line);
    assert "" + line + "" == line;
    RunAppend(host, c, line, "\r");
    RunOne(host, typed, '\r');
    assert "\r" == ['\r'];
    d := Run(host, typed, "\r");
  }
}
