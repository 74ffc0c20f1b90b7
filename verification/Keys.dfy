/** What the keys of the line editor mean (shell/editor.go), told of the text before and after the cursor. */
module Keys {
  import opened Completion
  import opened Line
  import opened Terminal
  import opened Utf8
  import opened Wrappers

  function LeftOf(c: Content): string
    requires c.Valid()
  {
    c.buf[..c.cursor]
  }

  function RightOf(c: Content): string
    requires c.Valid()
  {
    c.buf[c.cursor..]
  }

  /** Everything but the line and the state of an escape sequence stays. */
  predicate LineOnly(c: Content, d: Content) {
    && d.history == c.history && d.histIdx == c.histIdx && d.histSave == c.histSave
    && d.submitted == c.submitted && d.answered == c.answered
  }

  /** The rune is no part of an escape sequence, though it may end one that has only begun. */
  predicate Alone(c: Content, r: char) {
    c.esc != 2 && !(c.esc == 1 && (r == '[' || r == 'O'))
  }

  // ---- Enter ----

  /** Enter hands over the whole line, wherever the cursor is, and the next line starts empty. */
  lemma EnterHandsOver(host: Host, c: Content, r: char)
    requires c.Valid() && Extend(host) && c.esc != 2 && (r == '\r' || r == '\n')
    ensures
      var d := Run(host, c, [r]);
      && d.submitted == c.submitted + [c.buf] && d.answered == c.answered
      && d.buf == "" && d.cursor == 0 && d.esc == 0
      && d.history == c.history && d.histIdx == |c.history| && d.histSave == ""
  {
    RunOne(host, c, r);
  }

  lemma CompletedLineOnly(host: Host, c: Content)
    requires c.Valid() && Extend(host)
    ensures LineOnly(c, Completed(host, c))
  {
    hide Addition, BackTo;
  }

  /** No other rune submits anything, and none answers a line or touches the history. */
  lemma OnlyEnterSubmits(host: Host, c: Content, r: char)
    requires c.Valid() && Extend(host)
    ensures
      var d := Step(host, c, r);
      var enter := c.esc != 2 && (r == '\r' || r == '\n');
      && d.submitted == (if enter then c.submitted + [c.buf] else c.submitted)
      && d.answered == c.answered && d.history == c.history
  {
    hide BackTo, Addition, Completed;
    CompletedLineOnly(host, c.(esc := 0));
  }

  // ---- keys of one rune ----

  predicate Moves(r: char) {
    r == CTRL_A || r == CTRL_E
  }

  predicate Deletes(r: char) {
    r == DEL || r == BACKSPACE || r == CTRL_U || r == CTRL_K || r == CTRL_C
  }

  /** Home and end. */
  lemma MovesMean(host: Host, c: Content, r: char)
    requires c.Valid() && Extend(host) && Alone(c, r) && Moves(r)
    ensures
      var d := Run(host, c, [r]);
      && LineOnly(c, d) && d.esc == 0
      && (r == CTRL_A ==> LeftOf(d) == "" && RightOf(d) == c.buf)
      && (r == CTRL_E ==> LeftOf(d) == c.buf && RightOf(d) == "")
  {
    RunOne(host, c, r);
  }

  /** Backspace takes the rune before the cursor, Ctrl+U all before it, Ctrl+K all after it, and Ctrl+C the line. */
  lemma DeletesMean(host: Host, c: Content, r: char)
    requires c.Valid() && Extend(host) && Alone(c, r) && Deletes(r)
    ensures
      var b, a, d := LeftOf(c), RightOf(c), Run(host, c, [r]);
      && d.esc == 0 && (r != CTRL_C ==> LineOnly(c, d))
      && (r == DEL || r == BACKSPACE ==> LeftOf(d) == (if b == "" then "" else b[..|b| - 1]) && RightOf(d) == a)
      && (r == CTRL_U ==> LeftOf(d) == "" && RightOf(d) == a)
      && (r == CTRL_K ==> LeftOf(d) == b && RightOf(d) == "")
      && (r == CTRL_C ==>
           d.buf == "" && d.history == c.history && d.histIdx == |c.history| && d.histSave == "" &&
           d.submitted == c.submitted && d.answered == c.answered)
  {
    RunOne(host, c, r);
  }

  /** Ctrl+W takes the blanks before the cursor and the word before them, and nothing before the word. */
  lemma WordMeans(host: Host, c: Content) returns (j: nat)
    requires c.Valid() && Extend(host) && c.esc != 2
    ensures
      var b, d := LeftOf(c), Run(host, c, [CTRL_W]);
      var i := d.cursor;
      && LineOnly(c, d) && d.esc == 0 && i <= j <= |b| && LeftOf(d) == b[..i] && RightOf(d) == RightOf(c)
      && (forall k :: j <= k < |b| ==> b[k] == ' ') && (forall k :: i <= k < j ==> b[k] != ' ')
      && (j > 0 ==> b[j - 1] != ' ') && (i > 0 ==> b[i - 1] == ' ')
  {
    hide BackTo;
    RunOne(host, c, CTRL_W);
    j := BackTo(c.buf, c.cursor, NotBlank);
  }

  /** A rune that is typed goes in at the cursor; every other control rune does nothing to the line. */
  lemma OtherRunesMean(host: Host, c: Content, r: char)
    requires c.Valid() && Extend(host) && Alone(c, r) && !Moves(r) && !Deletes(r)
    requires r != CTRL_W && r != '\t' && r != '\r' && r != '\n'
    ensures
      var d := Run(host, c, [r]);
      && LineOnly(c, d) && d.esc == (if r == ESC then 1 else 0) && RightOf(d) == RightOf(c)
      && LeftOf(d) == if r >= ' ' then LeftOf(c) + [r] else LeftOf(c)
  {
    RunOne(host, c, r);
  }

  // ---- escape sequences ----

  predicate Final(r: char) {
    'A' <= r <= 'Z' || r == '~'
  }

  lemma {:induction false} SequenceEnds(host: Host, c: Content, s: string, f: char)
    requires c.Valid() && Extend(host) && c.esc == 2 && Final(f) && forall i :: 0 <= i < |s| ==> !Final(s[i])
    ensures Run(host, c, s + [f]) == Sequence(c.(csi := c.csi + s), c.csi + s + [f]).(esc := 0)
    decreases |s|
  {
    hide Sequence;
    if s == "" {
      assert "" + [f] == [f] && c.csi + "" == c.csi;
      RunOne(host, c, f);
    } else {
      var c' := c.(csi := c.csi + [s[0]]);
      assert (s + [f])[0] == s[0] && (s + [f])[1..] == s[1..] + [f];
      SequenceEnds(host, c', s[1..], f);
      assert c.csi + [s[0]] + s[1..] == c.csi + s;
    }
  }

  /** A whole escape sequence is acted on at its end. */
  lemma WholeSequence(host: Host, c: Content, intro: char, s: string, f: char)
    requires c.Valid() && Extend(host) && c.esc != 2 && (intro == '[' || intro == 'O')
    requires Final(f) && forall i :: 0 <= i < |s| ==> !Final(s[i])
    ensures Run(host, c, [ESC, intro] + (s + [f])) == Sequence(c.(csi := s, esc := 2), s + [f]).(esc := 0)
  {
    hide Sequence, Run;
    RunAppend(host, c, [ESC, intro], s + [f]);
    assert [ESC, intro] == [ESC] + [intro];
    RunAppend(host, c, [ESC], [intro]);
    RunOne(host, c, ESC);
    RunOne(host, c.(esc := 1), intro);
    SequenceEnds(host, c.(esc := 2, csi := ""), s, f);
    assert "" + s == s;
  }

  /** Does the line or the cursor change at all on this sequence? */
  predicate Known(s: string, f: char) {
    (s == "" && (f == 'A' || f == 'B' || f == 'C' || f == 'D' || f == 'H' || f == 'F')) || (s == "3" && f == '~')
  }

  lemma TwoStrings(s: string, f: char)
    ensures s == "" ==> s + [f] == [f]
    ensures s + [f] == "A" || s + [f] == "B" || s + [f] == "C" || s + [f] == "D" || s + [f] == "H" || s + [f] == "F" ==>
      s == "" && s + [f] == [f]
    ensures s + [f] == "3~" <==> s == "3" && f == '~'
  {
    var t := s + [f];
    assert |t| == |s| + 1 && t[|s|] == f;
    if t == "3~" {
      assert s == t[..|s|] == "3";
    }
  }

  /** Right, left, home, end and delete, after either introducer; any sequence that is none of the keys does
      nothing. */
  lemma SequenceMeans(host: Host, c: Content, intro: char, s: string, f: char)
    requires c.Valid() && Extend(host) && c.esc != 2 && (intro == '[' || intro == 'O')
    requires Final(f) && forall i :: 0 <= i < |s| ==> !Final(s[i])
    requires !(s == "" && (f == 'A' || f == 'B'))
    ensures
      var b, a, d := LeftOf(c), RightOf(c), Run(host, c, [ESC, intro] + (s + [f]));
      && LineOnly(c, d) && d.esc == 0
      && (if !Known(s, f) then LeftOf(d) == b && RightOf(d) == a
          else if f == 'C' then LeftOf(d) == b + a[..if a == "" then 0 else 1] && LeftOf(d) + RightOf(d) == b + a
          else if f == 'D' then LeftOf(d) == b[..if b == "" then 0 else |b| - 1] && LeftOf(d) + RightOf(d) == b + a
          else if f == 'H' then LeftOf(d) == "" && RightOf(d) == b + a
          else if f == 'F' then LeftOf(d) == b + a && RightOf(d) == ""
          else LeftOf(d) == b && RightOf(d) == if a == "" then "" else a[1..])
  {
    hide Run;
    WholeSequence(host, c, intro, s, f);
    TwoStrings(s, f);
    Halves(c);
    Halves(Run(host, c, [ESC, intro] + (s + [f])));
  }

  lemma Halves(c: Content)
    requires c.Valid()
    ensures LeftOf(c) + RightOf(c) == c.buf
  {
  }

  /** Up shows the line before the one shown, and down the one after it, the cursor at its end; below the last is the
      line that was being edited when the browsing began. */
  lemma ArrowsMean(host: Host, c: Content, intro: char, f: char)
    requires c.Valid() && Extend(host) && c.esc != 2 && (intro == '[' || intro == 'O') && (f == 'A' || f == 'B')
    ensures
      var i, n, d := c.histIdx, |c.history|, Run(host, c, [ESC, intro, f]);
      && d.submitted == c.submitted && d.answered == c.answered && d.history == c.history && d.esc == 0
      && d.histSave == (if f == 'A' && i == n > 0 then c.buf else c.histSave)
      && d.histIdx == (if f == 'A' then (if i == 0 then 0 else i - 1) else (if i == n then n else i + 1))
      && (d.histIdx == i ==> d.buf == c.buf && d.cursor == c.cursor)
      && (d.histIdx != i ==>
           d.cursor == |d.buf| && d.buf == if d.histIdx == n then d.histSave else c.history[d.histIdx])
  {
    hide Run;
    WholeSequence(host, c, intro, "", f);
    assert [ESC, intro] + ("" + [f]) == [ESC, intro, f];
    assert "" + [f] == [f];
  }

  // ---- history ----

  /** A line that was submitted and remembered is what Up shows on the next one; it is remembered unless it is empty
      or the same as the last, and nothing else of the history changes. */
  lemma UpRecalls(host: Host, c: Content)
    requires c.Valid() && Extend(host) && c.esc != 2 && !c.Waiting() && host.remembers(c.buf)
    requires c.buf != ""
    ensures
      var d := Answered(host, Run(host, c, "\r"));
      && d.history == (if c.history != [] && c.history[|c.history| - 1] == c.buf then c.history
                       else c.history + [c.buf])
      && Run(host, d, UP).buf == c.buf && d.buf == "" && !d.Waiting()
  {
    hide Run, Step;
    EnterHandsOver(host, c, '\r');
    assert "\r" == ['\r'];
    var d := Answered(host, Run(host, c, "\r"));
    ArrowsMean(host, d, '[', 'A');
  }

  /** An empty line, and one the owner does not remember, leave the history as it is. */
  lemma NotRecalled(host: Host, c: Content)
    requires c.Valid() && c.Waiting()
    requires var line := c.submitted[c.answered]; line == "" || !host.remembers(line)
    ensures Answered(host, c) == c.(answered := c.answered + 1)
  {
  }

  // ---- completion ----

  lemma WordIs(c: Content, p: string, word: string)
    requires c.Valid() && LeftOf(c) == p + word
    requires (p == "" || p[|p| - 1] == ' ') && forall i :: 0 <= i < |word| ==> word[i] != ' '
    ensures WordStart(c) == |p| && c.buf[..|p|] == p && c.buf[|p|..c.cursor] == word
  {
    hide BackTo;
    Front(c.buf, c.cursor, p, word);
    BackToIs(c.buf, c.cursor, |p|, Blank);
  }

  lemma Front(buf: string, i: nat, p: string, word: string)
    requires i <= |buf| && buf[..i] == p + word
    ensures i == |p| + |word| && buf[..|p|] == p && buf[|p|..i] == word
    ensures (forall k :: 0 <= k < |p| ==> buf[k] == p[k]) && forall k :: |p| <= k < i ==> buf[k] == word[k - |p|]
  {
    assert forall k :: 0 <= k < i ==> buf[k] == (p + word)[k];
  }

  /** What the owner offers for the word, told whether only white space comes before it. */
  function Offered(host: Host, p: string, word: string): seq<string> {
    host.complete(word, forall i :: 0 <= i < |p| ==> IsSpace(p[i]))
  }

  lemma CandidatesAre(host: Host, c: Content, p: string, word: string)
    requires c.Valid() && Extend(host) && LeftOf(c) == p + word
    requires (p == "" || p[|p| - 1] == ' ') && forall i :: 0 <= i < |word| ==> word[i] != ' '
    ensures Candidates(host, c) == Offered(host, p, word)
    ensures forall s :: s in Offered(host, p, word) ==> word <= s
  {
    hide IsSpace, WordStart;
    WordIs(c, p, word);
    assert forall i :: 0 <= i < |p| ==> c.buf[i] == c.buf[..|p|][i];
  }

  lemma InsertedMeans(c: Content, rs: string)
    requires c.Valid()
    ensures
      var d := Inserted(c, rs);
      d.Valid() && LineOnly(c, d) && d.esc == c.esc && LeftOf(d) == LeftOf(c) + rs && RightOf(d) == RightOf(c)
  {
  }

  /** Tab completes the word before the cursor, and leaves what is after it. */
  lemma TabMeans(host: Host, c: Content, p: string, word: string)
    requires c.Valid() && Extend(host) && c.esc != 2 && LeftOf(c) == p + word
    requires (p == "" || p[|p| - 1] == ' ') && forall i :: 0 <= i < |word| ==> word[i] != ' '
    ensures
      var d, ss := Run(host, c, "\t"), Offered(host, p, word);
      && LineOnly(c, d) && d.esc == 0 && RightOf(d) == RightOf(c)
      && (forall s :: s in ss ==> word <= s) && LeftOf(d) == p + word + Addition(word, ss)
  {
    hide Addition, Offered, Candidates, Inserted, Run, WordStart, LeftOf, RightOf;
    var c' := c.(esc := 0);
    AtRest(c);
    assert "\t" == ['\t'];
    RunOne(host, c, '\t');
    WordIs(c', p, word);
    CandidatesAre(host, c', p, word);
    InsertedMeans(c', Addition(word, Offered(host, p, word)));
  }

  lemma AtRest(c: Content)
    requires c.Valid()
    ensures LeftOf(c.(esc := 0)) == LeftOf(c) && RightOf(c.(esc := 0)) == RightOf(c)
  {
  }

  /** One candidate stands there then, with a blank after it unless it is a directory. */
  lemma TabOneCandidate(host: Host, c: Content, p: string, word: string, s: string)
    requires c.Valid() && Extend(host) && c.esc != 2 && LeftOf(c) == p + word
    requires (p == "" || p[|p| - 1] == ' ') && forall i :: 0 <= i < |word| ==> word[i] != ' '
    requires Offered(host, p, word) == [s]
    ensures LeftOf(Run(host, c, "\t")) == p + s + if s != "" && s[|s| - 1] == '/' then "" else " "
  {
    hide Run, Offered, LeftOf;
    TabMeans(host, c, p, word);
    assert s in [s];
    var rest, tail := s[|word|..], if s != "" && s[|s| - 1] == '/' then "" else " ";
    Assoc(p + word, rest, tail);
    Assoc(p, word, rest);
    assert word + rest == s;
  }

  /** Of several what they all begin with, and a replacement character for each further byte in common. */
  lemma TabCandidates(host: Host, c: Content, p: string, word: string)
    requires c.Valid() && Extend(host) && c.esc != 2 && LeftOf(c) == p + word
    requires (p == "" || p[|p| - 1] == ' ') && forall i :: 0 <= i < |word| ==> word[i] != ' '
    requires |Offered(host, p, word)| > 1
    ensures
      var ss := Offered(host, p, word);
      var common := CommonRunes(ss[0], ss[1..]);
      var extra := |CommonBytes(ss[0], ss[1..])| - |Encode(common)|;
      extra >= 0 && LeftOf(Run(host, c, "\t")) == p + common + Repeated(REPLACEMENT, extra)
  {
    hide Run, Offered, Addition, CommonRunes, CommonBytes, Encode, Repeated, LeftOf;
    TabMeans(host, c, p, word);
    var ss := Offered(host, p, word);
    AddsRunes(word, ss);
    var common := CommonRunes(ss[0], ss[1..]);
    var rest, tail := common[|word|..], Repeated(REPLACEMENT, |CommonBytes(ss[0], ss[1..])| - |Encode(common)|);
    Assoc(p + word, rest, tail);
    Assoc(p, word, rest);
    assert word + rest == common;
  }
}
