/** What of a prompt takes cells (shell/cells.go), and that a terminal shown the prompt agrees. */
module Prompt {
  import opened Terminal
  import opened Wrappers

  const START: char := '\U{0001}'
  const END: char := '\U{0002}'

  /** A prompt as it is written to a terminal: its markers removed. */
  function PromptText(p: string): string
    decreases |p|
  {
    if p == "" then ""
    else (if p[0] == START || p[0] == END then "" else [p[0]]) + PromptText(p[1..])
  }

  /** The first index at or after i for which the rest of the run ends, or the length. */
  function FirstAt(rs: string, i: nat, stop: char -> bool): (j: nat)
    requires i <= |rs|
    ensures i <= j <= |rs| && (j < |rs| ==> stop(rs[j])) && forall k :: i <= k < j ==> !stop(rs[k])
    decreases |rs| - i
  {
    if i == |rs| || stop(rs[i]) then i else FirstAt(rs, i + 1, stop)
  }

  /** Where a control string whose body starts at i ends: at BEL or ESC \. */
  function StringEnd(rs: string, i: nat): (j: nat)
    requires i <= |rs| && |rs| > 0
    ensures j < |rs|
    ensures i < |rs| ==> i <= j
    decreases |rs| - i
  {
    if i == |rs| then |rs| - 1
    else if rs[i] == BEL then i
    else if rs[i] == ESC && i + 1 < |rs| && rs[i + 1] == '\\' then i + 1
    else StringEnd(rs, i + 1)
  }

  predicate ControlFinal(c: char) { '@' <= c <= '~' }

  predicate NotIntermediate(c: char) { !(' ' <= c <= '/') }

  predicate MarkEnd(c: char) { c == END }

  /** The index of the last character of the escape sequence that starts rs. */
  function EscapeEnd(rs: string): (j: nat)
    requires rs != ""
    ensures j < |rs|
  {
    if |rs| == 1 then 0
    else if rs[1] == '[' then
      var j := FirstAt(rs, 2, ControlFinal); if j < |rs| then j else |rs| - 1
    else if rs[1] in "]PX^_" then StringEnd(rs, 2)
    else
      var j := FirstAt(rs, 1, NotIntermediate); if j < |rs| then j else |rs| - 1
  }

  /** A control string ends at k: at BEL, or at the \ of an ESC \ that is in its body too. */
  predicate EndsString(rs: string, k: nat) {
    2 <= k < |rs| && (rs[k] == BEL || (rs[k] == '\\' && k > 2 && rs[k - 1] == ESC))
  }

  lemma {:induction false} StringEndMeans(rs: string, i: nat)
    requires 2 <= i <= |rs| && (i > 2 ==> rs[i - 1] != ESC || i == |rs| || rs[i] != '\\')
    ensures var j := StringEnd(rs, i);
      && (forall k :: i <= k < j ==> !EndsString(rs, k))
      && (EndsString(rs, j) || (j == |rs| - 1 && forall k :: i <= k < |rs| ==> !EndsString(rs, k)))
    decreases |rs| - i
  {
    if i < |rs| && rs[i] != BEL && !(rs[i] == ESC && i + 1 < |rs| && rs[i + 1] == '\\') {
      StringEndMeans(rs, i + 1);
      assert !EndsString(rs, i);
    }
  }

  /** Where an escape sequence ends (sections 5.3 to 5.6 of ECMA-48): a control sequence at the first final character, a
      control string at BEL or ESC \, any other after its intermediate characters; one that is cut off, at the end. */
  lemma EscapeMeans(rs: string)
    requires |rs| > 1 && rs[0] == ESC
    ensures
      var e := EscapeEnd(rs);
      if rs[1] == '[' then
        (forall k :: 2 <= k < e ==> !('@' <= rs[k] <= '~')) && (e >= 2 ==> '@' <= rs[e] <= '~' || e == |rs| - 1) &&
        (e < 2 ==> |rs| == 2)
      else if rs[1] in "]PX^_" then
        (forall k :: 2 <= k < e ==> !EndsString(rs, k)) && (EndsString(rs, e) || e == |rs| - 1)
      else
        (forall k :: 1 <= k < e ==> ' ' <= rs[k] <= '/') && (!(' ' <= rs[e] <= '/') || e == |rs| - 1) && e >= 1
  {
    if rs[1] != '[' && rs[1] in "]PX^_" {
      StringEndMeans(rs, 2);
    }
  }

  /** How many characters the first thing in rs takes: a marked run, an escape sequence or one rune. */
  function ItemLength(rs: string): (n: nat)
    requires rs != ""
    ensures 1 <= n <= |rs|
  {
    if rs[0] == START then var j := FirstAt(rs, 0, MarkEnd); if j < |rs| then j + 1 else |rs|
    else if rs[0] == ESC then EscapeEnd(rs) + 1
    else 1
  }

  predicate TakesCells(c: char) {
    c == '\n' || (c >= ' ' && c != DEL)
  }

  /** The runes of a prompt that take cells. */
  function PromptCells(rs: string): string
    decreases |rs|
  {
    if rs == "" then ""
    else
      (if rs[0] != START && rs[0] != ESC && TakesCells(rs[0]) then [rs[0]] else "") +
      PromptCells(rs[ItemLength(rs)..])
  }

  /** A rune that begins nothing takes cells if it is a newline or no control, and the rest goes on after it. */
  lemma RuneCells(c: char, rest: string)
    requires c != START && c != ESC
    ensures PromptCells([c] + rest) == (if c == '\n' || (' ' <= c && c != DEL) then [c] else "") + PromptCells(rest)
  {
    assert ([c] + rest)[1..] == rest;
  }

  /** What the item at i adds. */
  function ItemCells(rs: string, i: nat): string
    requires i < |rs|
  {
    if rs[i] != START && rs[i] != ESC && TakesCells(rs[i]) then [rs[i]] else ""
  }

  lemma PromptCellsStep(rs: string, i: nat)
    requires i < |rs|
    ensures PromptCells(rs[i..]) == ItemCells(rs, i) + PromptCells(rs[i + ItemLength(rs[i..])..])
  {
    assert rs[i..][ItemLength(rs[i..])..] == rs[i + ItemLength(rs[i..])..];
  }

  lemma PromptCellsOn(out: string, rs: string, i: nat)
    requires i < |rs|
    ensures out + PromptCells(rs[i..]) == out + ItemCells(rs, i) + PromptCells(rs[i + ItemLength(rs[i..])..])
  {
    hide PromptCells, ItemCells;
    PromptCellsStep(rs, i);
    Assoc(out, ItemCells(rs, i), PromptCells(rs[i + ItemLength(rs[i..])..]));
  }

  /** The loops of shell/cells.go. */
  method SkipEscape(rs: string, start: nat) returns (i: nat)
    requires start < |rs|
    ensures i == start + EscapeEnd(rs[start..])
  {
    ghost var tail := rs[start..];
    i := start;
    if i + 1 >= |rs| {
      return;
    }
    i := i + 1;
    if rs[i] == '[' {
      i := i + 1;
      while i < |rs|
        invariant start + 2 <= i <= |rs|
        invariant FirstAt(tail, 2, ControlFinal) == FirstAt(tail, i - start, ControlFinal)
      {
        if '@' <= rs[i] <= '~' {
          return;
        }
        i := i + 1;
      }
      return |rs| - 1;
    }
    if rs[i] in "]PX^_" {
      i := i + 1;
      while i < |rs|
        invariant start + 2 <= i <= |rs|
        invariant StringEnd(tail, 2) == StringEnd(tail, i - start)
      {
        if rs[i] == BEL {
          return;
        }
        if rs[i] == ESC && i + 1 < |rs| && rs[i + 1] == '\\' {
          return i + 1;
        }
        i := i + 1;
      }
      return |rs| - 1;
    }
    while i < |rs| && ' ' <= rs[i] <= '/'
      invariant start + 1 <= i <= |rs|
      invariant FirstAt(tail, 1, NotIntermediate) == FirstAt(tail, i - start, NotIntermediate)
    {
      i := i + 1;
    }
    i := if i < |rs| then i else |rs| - 1;
  }

  method SkipMarked(rs: string, start: nat) returns (i: nat)
    requires start <= |rs|
    ensures start <= i <= |rs| && i == start + FirstAt(rs[start..], 0, MarkEnd)
  {
    ghost var tail := rs[start..];
    i := start;
    while i < |rs| && rs[i] != END
      invariant start <= i <= |rs|
      invariant FirstAt(tail, 0, MarkEnd) == FirstAt(tail, i - start, MarkEnd)
    {
      i := i + 1;
    }
  }

  /** One turn of the loop: what the item at i adds, and where the next begins. */
  method NextItem(rs: string, i: nat) returns (cells: string, next: nat)
    requires i < |rs|
    ensures i < next == i + ItemLength(rs[i..]) <= |rs|
    ensures cells == ItemCells(rs, i)
  {
    var r, last := rs[i], i;
    cells := "";
    if r == START {
      last := SkipMarked(rs, i);
    } else if r == ESC {
      last := SkipEscape(rs, i);
    } else if TakesCells(r) {
      cells := [r];
    }
    next := if last < |rs| then last + 1 else last;
  }

  method ComputePromptCells(rs: string) returns (out: string)
    ensures out == PromptCells(rs)
  {
    hide PromptCells, ItemCells, ItemLength;
    out := "";
    var i := 0;
    assert rs[0..] == rs;
    while i < |rs|
      invariant 0 <= i <= |rs|
      invariant out + PromptCells(rs[i..]) == PromptCells(rs)
    {
      PromptCellsOn(out, rs, i);
      var cells, next := NextItem(rs, i);
      out, i := out + cells, next;
    }
    assert rs[i..] == "";
    NoCells();
  }

  lemma NoCells()
    ensures PromptCells("") == ""
  {
  }

  // ---- prompts on a terminal ----

  /** Written on any terminal, the prompt does what its cells alone would do. */
  ghost predicate Honest(g: Geometry, p: string) {
    && g.AllPrintable(PromptCells(p))
    && forall t: Term :: t.phase == Ground ==> Replay(g, t, PromptText(p)) == Replay(g, t, PromptCells(p))
  }

  /** What prompts are made of. Colours and titles may be marked as taking no cells; they take none anyway. */
  datatype Piece = Plain(text: string) | Colour(params: string, marked: bool) | Title(body: string, marked: bool) {

    ghost predicate Valid(g: Geometry) {
      match this
      case Plain(text) => g.AllPrintable(text)
      case Colour(params, _) => forall i :: 0 <= i < |params| ==> '0' <= params[i] <= ';'
      case Title(body, _) => forall i :: 0 <= i < |body| ==> body[i] >= ' '
    }

    function Core(): string {
      match this
      case Plain(text) => text
      case Colour(params, _) => [ESC, '['] + params + ['m']
      case Title(body, _) => [ESC, ']'] + body + [BEL]
    }

    function Render(): string {
      if Plain? || !marked then Core() else [START] + Core() + [END]
    }

    function Cells(): string {
      if Plain? then text else ""
    }
  }

  function Render(ps: seq<Piece>): string {
    if ps == [] then "" else ps[0].Render() + Render(ps[1..])
  }

  lemma {:induction false} PromptTextAppend(a: string, b: string)
    ensures PromptText(a + b) == PromptText(a) + PromptText(b)
    decreases |a|
  {
    if a == "" {
      assert a + b == b;
    } else {
      assert (a + b)[0] == a[0] && (a + b)[1..] == a[1..] + b;
      PromptTextAppend(a[1..], b);
    }
  }

  lemma {:induction false} PromptTextUnmarked(a: string)
    requires START !in a && END !in a
    ensures PromptText(a) == a
    decreases |a|
  {
    if a != "" {
      PromptTextUnmarked(a[1..]);
    }
  }

  lemma {:induction false} PlainCells(g: Geometry, text: string, rest: string)
    requires g.AllPrintable(text)
    ensures PromptCells(text + rest) == text + PromptCells(rest)
    decreases |text|
  {
    if text == "" {
      assert text + rest == rest;
    } else {
      assert g.Printable(text[0]);
      assert (text + rest)[0] == text[0] && (text + rest)[1..] == text[1..] + rest;
      PlainCells(g, text[1..], rest);
    }
  }

  lemma {:induction false} TitleEnds(rs: string, i: nat, j: nat)
    requires i <= j < |rs| && rs[j] == BEL && forall k :: i <= k < j ==> rs[k] >= ' '
    ensures StringEnd(rs, i) == j
    decreases j - i
  {
    if i < j {
      TitleEnds(rs, i + 1, j);
    }
  }

  lemma ColourIsItem(params: string, rest: string)
    requires forall i :: 0 <= i < |params| ==> '0' <= params[i] <= ';'
    ensures ItemLength([ESC, '['] + params + ['m'] + rest) == |params| + 3
  {
    var rs, n := [ESC, '['] + params + ['m'] + rest, |params| + 3;
    assert rs[n - 1] == 'm' && forall k :: 2 <= k < n - 1 ==> rs[k] == params[k - 2];
    assert FirstAt(rs, 2, ControlFinal) == n - 1;
  }

  lemma TitleIsItem(body: string, rest: string)
    requires forall i :: 0 <= i < |body| ==> body[i] >= ' '
    ensures ItemLength([ESC, ']'] + body + [BEL] + rest) == |body| + 3
  {
    var rs, n := [ESC, ']'] + body + [BEL] + rest, |body| + 3;
    assert rs[n - 1] == BEL && forall k :: 2 <= k < n - 1 ==> rs[k] == body[k - 2];
    TitleEnds(rs, 2, n - 1);
  }

  /** A colour or a title is one item, whatever follows it. */
  lemma PieceIsItem(g: Geometry, piece: Piece, rest: string)
    requires piece.Valid(g) && !piece.Plain?
    ensures ItemLength(piece.Render() + rest) == |piece.Render()|
  {
    hide ItemLength;
    if piece.marked {
      MarkedIsItem(piece.Core(), rest);
    } else if piece.Colour? {
      ColourIsItem(piece.params, rest);
    } else {
      TitleIsItem(piece.body, rest);
    }
  }

  lemma MarkedIsItem(core: string, rest: string)
    requires END !in core
    ensures ItemLength([START] + core + [END] + rest) == |core| + 2
  {
    var rs := [START] + core + [END] + rest;
    assert rs[|core| + 1] == END && forall k :: 0 <= k < |core| + 1 ==> rs[k] != END;
    assert FirstAt(rs, 0, MarkEnd) == |core| + 1;
  }

  /** A piece adds its own cells to what follows it. */
  lemma PieceCells(g: Geometry, piece: Piece, rest: string)
    requires piece.Valid(g)
    ensures PromptCells(piece.Render() + rest) == piece.Cells() + PromptCells(rest)
  {
    if piece.Plain? {
      PlainCells(g, piece.text, rest);
    } else {
      PieceIsItem(g, piece, rest);
      var rs := piece.Render() + rest;
      assert rs[0] == START || rs[0] == ESC;
      assert rs[|piece.Render()|..] == rest;
    }
  }

  lemma {:induction false} ReplayParams(g: Geometry, t: Term, s: string)
    requires t.phase.Csi? && forall i :: 0 <= i < |s| ==> '0' <= s[i] <= ';'
    ensures var t' := Replay(g, t, s); t'.phase.Csi? && t' == t.(phase := t'.phase)
    decreases |s|
  {
    if s != "" {
      ReplayParams(g, Feed(g, t, s[0]), s[1..]);
    }
  }

  lemma {:induction false} ReplayBody(g: Geometry, t: Term, s: string)
    requires t.phase == Str && forall i :: 0 <= i < |s| ==> s[i] >= ' '
    ensures Replay(g, t, s) == t
    decreases |s|
  {
    if s != "" {
      ReplayBody(g, t, s[1..]);
    }
  }

  lemma ReplayTwo(g: Geometry, t: Term, a: char, b: char)
    ensures Replay(g, t, [a, b]) == Feed(g, Feed(g, t, a), b)
  {
    assert [a, b][1..] == [b] && [b][1..] == "";
    assert Replay(g, Feed(g, t, a), [b]) == Replay(g, Feed(g, Feed(g, t, a), b), "");
  }

  lemma ReplayOne(g: Geometry, t: Term, c: char)
    ensures Replay(g, t, [c]) == Feed(g, t, c)
  {
    assert [c][1..] == "";
  }

  lemma ReplayFramed(g: Geometry, t: Term, kind: char, body: string, last: char)
    ensures Replay(g, t, [ESC, kind] + body + [last])
      == Feed(g, Replay(g, Feed(g, Feed(g, t, ESC), kind), body), last)
  {
    hide Feed, Replay;
    ReplayAppend(g, t, [ESC, kind] + body, [last]);
    ReplayAppend(g, t, [ESC, kind], body);
    ReplayTwo(g, t, ESC, kind);
    ReplayOne(g, Replay(g, t, [ESC, kind] + body), last);
  }

  /** A colour or a title leaves the terminal as it was. */
  lemma ReplayCore(g: Geometry, t: Term, piece: Piece)
    requires piece.Valid(g) && t.phase == Ground
    ensures Replay(g, t, piece.Core()) == Replay(g, t, piece.Cells())
  {
    if !piece.Plain? {
      hide Replay;
      var kind := if piece.Colour? then '[' else ']';
      var body := if piece.Colour? then piece.params else piece.body;
      var t2 := Feed(g, Feed(g, t, ESC), kind);
      ReplayFramed(g, t, kind, body, if piece.Colour? then 'm' else BEL);
      if piece.Colour? { ReplayParams(g, t2, body); } else { ReplayBody(g, t2, body); }
      ReplayNothing(g, t);
    }
  }

  lemma ReplayNothing(g: Geometry, t: Term)
    ensures Replay(g, t, "") == t
  {
  }

  lemma CoreUnmarked(g: Geometry, piece: Piece)
    requires piece.Valid(g)
    ensures START !in piece.Core() && END !in piece.Core()
  {
  }

  lemma MarksRemoved(core: string)
    requires PromptText(core) == core
    ensures PromptText([START] + core + [END]) == core
  {
    hide PromptText;
    NoMarks();
    PromptTextAppend([START] + core, [END]);
    PromptTextAppend([START], core);
  }

  lemma PieceText(g: Geometry, piece: Piece)
    requires piece.Valid(g)
    ensures PromptText(piece.Render()) == piece.Core()
  {
    hide PromptText;
    CoreUnmarked(g, piece);
    hide Piece.Core, Piece.Valid;
    PromptTextUnmarked(piece.Core());
    MarksRemoved(piece.Core());
  }

  lemma NoMarks()
    ensures PromptText([START]) == "" && PromptText([END]) == ""
  {
  }

  /** A prompt of text, colours and window titles, marked or not, is drawn as its cells. */
  lemma {:induction false} PiecesAreHonest(g: Geometry, ps: seq<Piece>)
    requires forall p :: p in ps ==> p.Valid(g)
    ensures Honest(g, Render(ps))
    decreases |ps|
  {
    if ps != [] {
      var a, b := ps[0].Render(), Render(ps[1..]);
      PiecesAreHonest(g, ps[1..]);
      PieceCells(g, ps[0], b);
      PieceText(g, ps[0]);
      PromptTextAppend(a, b);
      forall t: Term | t.phase == Ground
        ensures Replay(g, t, PromptText(a + b)) == Replay(g, t, PromptCells(a + b))
      {
        ReplayCore(g, t, ps[0]);
        ReplayAppend(g, t, ps[0].Core(), PromptText(b));
        ReplayAppend(g, t, ps[0].Cells(), PromptCells(b));
        GroundAfterText(g, t, ps[0].Cells());
      }
    }
  }

  lemma {:induction false} GroundAfterText(g: Geometry, t: Term, s: string)
    requires g.AllPrintable(s) && t.phase == Ground
    ensures Replay(g, t, s).phase == Ground
    decreases |s|
  {
    if s != "" {
      assert g.Printable(s[0]);
      GroundAfterText(g, Feed(g, t, s[0]), s[1..]);
    }
  }
}
