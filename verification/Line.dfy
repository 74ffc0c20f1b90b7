/** The line a LineEditor edits (shell/editor.go), apart from the screen: what each key makes of it. */
module Line {
  import opened Completion
  import opened Terminal

  /** What the editor's owner does: the text it writes and the prompt after it, when it answers a submitted line and
      in its other callbacks; the completions it offers; and which lines it adds to the history. */
  datatype Host = Host(
    submitText: string -> string, submitPrompt: string -> string, remembers: string -> bool,
    interruptText: string, interruptPrompt: string,
    clearText: string, clearPrompt: string,
    eofText: string, eofPrompt: string,
    complete: (string, bool) -> seq<string>)

  /** The line, the history, and the lines submitted, of which the owner has answered the first ones. */
  datatype Content = Content(buf: string, cursor: nat, history: seq<string>, histIdx: nat, histSave: string,
                             esc: nat, csi: string, submitted: seq<string>, answered: nat)
  {
    ghost predicate Valid() {
      cursor <= |buf| && histIdx <= |history| && esc <= 2 && answered <= |submitted|
    }

    /** Submitted lines wait for their answers. */
    predicate Waiting() {
      answered < |submitted|
    }
  }

  const CTRL_A: char := '\U{0001}'
  const CTRL_C: char := '\U{0003}'
  const CTRL_D: char := '\U{0004}'
  const CTRL_E: char := '\U{0005}'
  const BACKSPACE: char := '\U{0008}'
  const CTRL_K: char := '\U{000b}'
  const CTRL_L: char := '\U{000c}'
  const CTRL_U: char := '\U{0015}'
  const CTRL_W: char := '\U{0017}'

  predicate Blank(c: char) { c == ' ' }

  predicate NotBlank(c: char) { c != ' ' }

  /** White space as unicode.IsSpace has it. */
  predicate IsSpace(c: char) {
    '\t' <= c <= '\r' || c in " \U{0085}\U{00a0}\U{1680}\U{2028}\U{2029}\U{202f}\U{205f}\U{3000}" ||
    '\U{2000}' <= c <= '\U{200a}'
  }

  /** The nearest place at or before i that is the line's start or just after a character that stops. */
  function BackTo(buf: string, i: nat, stop: char -> bool): (j: nat)
    requires i <= |buf|
    ensures j <= i && (j > 0 ==> stop(buf[j - 1])) && forall k :: j <= k < i ==> !stop(buf[k])
  {
    if i == 0 || stop(buf[i - 1]) then i else BackTo(buf, i - 1, stop)
  }

  function Inserted(c: Content, rs: string): Content
    requires c.Valid()
  {
    c.(buf := c.buf[..c.cursor] + rs + c.buf[c.cursor..], cursor := c.cursor + |rs|)
  }

  function Removed(c: Content, i: nat, j: nat): Content
    requires i <= j <= |c.buf|
  {
    c.(buf := c.buf[..i] + c.buf[j..], cursor := i)
  }

  /** The editor as it starts the next line. */
  function Reset(c: Content): Content {
    c.(buf := "", cursor := 0, histIdx := |c.history|, histSave := "")
  }

  function Remembered(c: Content, line: string): Content {
    if line == "" || (|c.history| > 0 && c.history[|c.history| - 1] == line) then c
    else c.(history := c.history + [line], histIdx := |c.history| + 1)
  }

  function Submitted(c: Content): Content {
    Reset(c).(submitted := c.submitted + [c.buf])
  }

  /** The owner has answered the first line that waits. It remembers it only then. */
  function Answered(host: Host, c: Content): (d: Content)
    requires c.Valid() && c.Waiting()
    ensures d.Valid()
  {
    var line := c.submitted[c.answered];
    (if host.remembers(line) then Remembered(c, line) else c).(answered := c.answered + 1)
  }

  function HistoryUp(c: Content): Content
    requires c.Valid()
  {
    if c.histIdx == 0 then c
    else
      var line := c.history[c.histIdx - 1];
      c.(histSave := if c.histIdx == |c.history| then c.buf else c.histSave,
         histIdx := c.histIdx - 1, buf := line, cursor := |line|)
  }

  function HistoryDown(c: Content): Content
    requires c.Valid()
  {
    if c.histIdx == |c.history| then c
    else
      var line := if c.histIdx + 1 == |c.history| then c.histSave else c.history[c.histIdx + 1];
      c.(histIdx := c.histIdx + 1, buf := line, cursor := |line|)
  }

  /** A CSI or SS3 sequence, without its introducer. */
  function Sequence(c: Content, seq_: string): (d: Content)
    requires c.Valid()
    ensures d.Valid()
  {
    if seq_ == "A" then HistoryUp(c)
    else if seq_ == "B" then HistoryDown(c)
    else if seq_ == "C" then (if c.cursor < |c.buf| then c.(cursor := c.cursor + 1) else c)
    else if seq_ == "D" then (if c.cursor > 0 then c.(cursor := c.cursor - 1) else c)
    else if seq_ == "H" then c.(cursor := 0)
    else if seq_ == "F" then c.(cursor := |c.buf|)
    else if seq_ == "3~" then (if c.cursor < |c.buf| then Removed(c, c.cursor, c.cursor + 1) else c)
    else c
  }

  // ---- completion ----

  function WordStart(c: Content): (i: nat)
    requires c.Valid()
    ensures i <= c.cursor
  {
    BackTo(c.buf, c.cursor, Blank)
  }

  function Candidates(host: Host, c: Content): seq<string>
    requires c.Valid()
  {
    var start := WordStart(c);
    host.complete(c.buf[start..c.cursor], forall i :: 0 <= i < start ==> IsSpace(c.buf[i]))
  }

  ghost predicate Extend(host: Host) {
    forall word: string, first: bool, s: string :: s in host.complete(word, first) ==> word <= s
  }

  function Completed(host: Host, c: Content): Content
    requires c.Valid() && Extend(host)
  {
    Inserted(c, Addition(c.buf[WordStart(c)..c.cursor], Candidates(host, c)))
  }

  // ---- keys ----

  /** One rune outside an escape sequence. */
  function Key(host: Host, c: Content, r: char): (d: Content)
    requires c.Valid() && Extend(host)
    ensures d.Valid()
  {
    if r == ESC then c.(esc := 1)
    else if r == '\r' || r == '\n' then Submitted(c)
    else if r == DEL || r == BACKSPACE then (if c.cursor > 0 then Removed(c, c.cursor - 1, c.cursor) else c)
    else if r == CTRL_C then Reset(c)
    else if r == CTRL_A then c.(cursor := 0)
    else if r == CTRL_E then c.(cursor := |c.buf|)
    else if r == CTRL_U then Removed(c, 0, c.cursor)
    else if r == CTRL_K then Removed(c, c.cursor, |c.buf|)
    else if r == CTRL_W then Removed(c, BackTo(c.buf, BackTo(c.buf, c.cursor, NotBlank), Blank), c.cursor)
    else if r == '\t' then Completed(host, c)
    else if r >= ' ' then Inserted(c, [r])
    else c
  }

  /** One rune of input. */
  function Step(host: Host, c: Content, r: char): (d: Content)
    requires c.Valid() && Extend(host)
    ensures d.Valid()
  {
    hide Key, Sequence;
    if c.esc == 2 then
      if 'A' <= r <= 'Z' || r == '~' then Sequence(c, c.csi + [r]).(esc := 0) else c.(csi := c.csi + [r])
    else if c.esc == 1 && (r == '[' || r == 'O') then c.(esc := 2, csi := "")
    else Key(host, c.(esc := 0), r)
  }

  function Run(host: Host, c: Content, data: string): (d: Content)
    requires c.Valid() && Extend(host)
    ensures d.Valid()
    decreases |data|
  {
    if data == "" then c else Run(host, Step(host, c, data[0]), data[1..])
  }

  lemma {:induction false} RunAppend(host: Host, c: Content, a: string, b: string)
    requires c.Valid() && Extend(host)
    ensures Run(host, c, a + b) == Run(host, Run(host, c, a), b)
    decreases |a|
  {
    if a == "" {
      assert a + b == b;
    } else {
      assert (a + b)[0] == a[0] && (a + b)[1..] == a[1..] + b;
      RunAppend(host, Step(host, c, a[0]), a[1..], b);
    }
  }

  /** Text typed at the cursor goes in there, whole and in order. */
  lemma {:induction false} TypingInserts(host: Host, c: Content, s: string)
    requires c.Valid() && Extend(host) && c.esc == 0
    requires forall i :: 0 <= i < |s| ==> s[i] >= ' ' && s[i] != DEL
    ensures Run(host, c, s) == Inserted(c, s)
    decreases |s|
  {
    hide Inserted;
    InsertedNone(c);
    if s != "" {
      TypedOne(host, c, s[0]);
      TypingInserts(host, Inserted(c, [s[0]]), s[1..]);
      InsertedTwice(c, [s[0]], s[1..]);
      assert [s[0]] + s[1..] == s;
    }
  }

  lemma TypedOne(host: Host, c: Content, r: char)
    requires c.Valid() && Extend(host) && c.esc == 0 && r >= ' ' && r != DEL
    ensures Step(host, c, r) == Inserted(c, [r]) && Inserted(c, [r]).esc == 0
  {
  }

  lemma InsertedTwice(c: Content, a: string, b: string)
    requires c.Valid()
    ensures Inserted(c, a).Valid() && Inserted(Inserted(c, a), b) == Inserted(c, a + b)
  {
    var d := Inserted(c, a);
    assert d.buf[..d.cursor] == c.buf[..c.cursor] + a && d.buf[d.cursor..] == c.buf[c.cursor..];
    assert c.buf[..c.cursor] + a + b == c.buf[..c.cursor] + (a + b);
  }

  function Times(s: string, n: nat): string {
    if n == 0 then "" else Times(s, n - 1) + s
  }

  const UP: string := [ESC, '[', 'A']
  const DOWN: string := [ESC, '[', 'B']

  lemma RunThree(host: Host, c: Content, x: char, y: char, z: char)
    requires c.Valid() && Extend(host)
    ensures Run(host, c, [x, y, z]) == Step(host, Step(host, Step(host, c, x), y), z)
  {
    hide Step;
    var c1 := Step(host, c, x);
    var c2 := Step(host, c1, y);
    assert [x, y, z][1..] == [y, z] && [y, z][1..] == [z] && [z][1..] == "";
    assert Run(host, c2, [z]) == Run(host, Step(host, c2, z), "");
    assert Run(host, c1, [y, z]) == Run(host, c2, [z]);
  }

  lemma RunArrow(host: Host, c: Content, final: char)
    requires c.Valid() && Extend(host) && c.esc == 0 && (final == 'A' || final == 'B')
    ensures Run(host, c, [ESC, '[', final]) ==
      (if final == 'A' then HistoryUp(c) else HistoryDown(c)).(csi := "", esc := 0)
  {
    hide Run;
    RunThree(host, c, ESC, '[', final);
    assert "" + [final] == [final];
  }

  /** n steps up the history from a fresh line show the n-th last line. */
  lemma {:induction false} UpTimes(host: Host, c: Content, n: nat)
    requires c.Valid() && Extend(host) && c.esc == 0 && c.histIdx == |c.history| && 1 <= n <= |c.history|
    ensures var line := c.history[|c.history| - n];
      Run(host, c, Times(UP, n)) ==
      c.(buf := line, cursor := |line|, histIdx := |c.history| - n, histSave := c.buf, csi := "")
  {
    RunAppend(host, c, Times(UP, n - 1), UP);
    if n == 1 {
      assert Times(UP, 0) + UP == UP;
      RunArrow(host, c, 'A');
    } else {
      UpTimes(host, c, n - 1);
      RunArrow(host, Run(host, c, Times(UP, n - 1)), 'A');
    }
  }

  lemma {:induction false} DownTimes(host: Host, c: Content, n: nat)
    requires c.Valid() && Extend(host) && c.esc == 0 && 1 <= n && c.histIdx + n == |c.history|
    ensures Run(host, c, Times(DOWN, n)) ==
      c.(buf := c.histSave, cursor := |c.histSave|, histIdx := |c.history|, csi := "")
    decreases n
  {
    var d := HistoryDown(c).(csi := "", esc := 0);
    RunArrow(host, c, 'B');
    TimesFront(DOWN, n);
    RunAppend(host, c, DOWN, Times(DOWN, n - 1));
    if n > 1 {
      DownTimes(host, d, n - 1);
    }
  }

  lemma {:induction false} TimesFront(s: string, n: nat)
    requires n > 0
    ensures Times(s, n) == s + Times(s, n - 1)
  {
    if n > 1 {
      TimesFront(s, n - 1);
    } else {
      assert Times(s, 0) + s == s + Times(s, 0);
    }
  }

  lemma RunOne(host: Host, c: Content, r: char)
    requires c.Valid() && Extend(host)
    ensures Run(host, c, [r]) == Step(host, c, r)
  {
    assert [r][1..] == "";
  }

  lemma InsertedThenRemoved(c: Content, s: string, k: nat)
    requires c.Valid() && k <= |s|
    ensures Removed(Inserted(c, s), c.cursor + k, c.cursor + |s|) == Inserted(c, s[..k])
  {
    var line := Inserted(c, s).buf;
    assert line[..c.cursor + k] == c.buf[..c.cursor] + s[..k];
    assert line[c.cursor + |s|..] == c.buf[c.cursor..];
  }

  lemma InsertedNone(c: Content)
    requires c.Valid()
    ensures Inserted(c, "") == c
  {
    assert c.buf[..c.cursor] + "" + c.buf[c.cursor..] == c.buf;
  }

  lemma BackspaceTakesOne(host: Host, c: Content, s: string)
    requires c.Valid() && Extend(host) && c.esc == 0 && s != ""
    ensures Run(host, Inserted(c, s), [DEL]) == Inserted(c, s[..|s| - 1])
  {
    RunOne(host, Inserted(c, s), DEL);
    InsertedThenRemoved(c, s, |s| - 1);
  }

  /** As many backspaces as runes were typed give the line and the cursor back. */
  lemma {:induction false} BackspacesUndoTyping(host: Host, c: Content, s: string)
    requires c.Valid() && Extend(host) && c.esc == 0
    ensures Run(host, Inserted(c, s), Times([DEL], |s|)) == c
    decreases |s|
  {
    hide Step;
    InsertedNone(c);
    if s != "" {
      TimesFront([DEL], |s|);
      RunAppend(host, Inserted(c, s), [DEL], Times([DEL], |s| - 1));
      BackspaceTakesOne(host, c, s);
      BackspacesUndoTyping(host, c, s[..|s| - 1]);
    }
  }

  /** Ctrl+W takes away the word before the cursor with the blanks after it, and nothing before it. */
  lemma WordIsErased(host: Host, c: Content, word: string, blanks: nat)
    requires c.Valid() && Extend(host) && c.esc == 0
    requires c.cursor == 0 || c.buf[c.cursor - 1] == ' '
    requires word != "" && forall i :: 0 <= i < |word| ==> word[i] != ' '
    ensures Run(host, Inserted(c, word + Times(" ", blanks)), [CTRL_W]) == c
  {
    hide Inserted, BackTo, Run, Times, Removed;
    var s := word + Times(" ", blanks);
    var d := Inserted(c, s);
    BlankTimes(blanks);
    InsertedAt(c, s);
    BackToIs(d.buf, d.cursor, c.cursor + |word|, NotBlank);
    BackToIs(d.buf, c.cursor + |word|, c.cursor, Blank);
    RunOne(host, d, CTRL_W);
    InsertedThenRemoved(c, s, 0);
    InsertedNone(c);
  }

  lemma InsertedAt(c: Content, s: string)
    requires c.Valid()
    ensures var d := Inserted(c, s);
      && d.Valid() && d.esc == c.esc && d.cursor == c.cursor + |s| <= |d.buf|
      && (forall k :: 0 <= k < c.cursor ==> d.buf[k] == c.buf[k])
      && forall k :: c.cursor <= k < d.cursor ==> d.buf[k] == s[k - c.cursor]
  {
  }

  lemma {:induction false} BackToIs(buf: string, i: nat, j: nat, stop: char -> bool)
    requires j <= i <= |buf| && (j > 0 ==> stop(buf[j - 1])) && forall k :: j <= k < i ==> !stop(buf[k])
    ensures BackTo(buf, i, stop) == j
    decreases i
  {
    if i > j {
      BackToIs(buf, i - 1, j, stop);
    }
  }

  lemma {:induction false} BlankTimes(n: nat)
    ensures |Times(" ", n)| == n && forall i :: 0 <= i < n ==> Times(" ", n)[i] == ' '
    decreases n
  {
    if n > 0 {
      BlankTimes(n - 1);
    }
  }

  /** Browsing the history and coming back gives the fresh line again, the cursor at its end. */
  lemma HistoryRoundTrip(host: Host, c: Content, n: nat)
    requires c.Valid() && Extend(host) && c.esc == 0 && c.histIdx == |c.history| && 1 <= n <= |c.history|
    ensures var d := Run(host, c, Times(UP, n) + Times(DOWN, n));
      d.buf == c.buf && d.cursor == |c.buf| && d.histIdx == c.histIdx && d.history == c.history
  {
    UpTimes(host, c, n);
    RunAppend(host, c, Times(UP, n), Times(DOWN, n));
    DownTimes(host, Run(host, c, Times(UP, n)), n);
  }
}
