/** The full-screen editor (shell/edit.go): a list of lines held in slices that are appended to in place, and
    the keys that change it. */
module Edit {
  import opened Wrappers

  datatype Key =
    | Typed(runes: string)
    | Enter
    | Backspace
    | Delete
    | CutToEnd
    | Up
    | Down
    | Left
    | Right
    | Home
    | EndOfLine
    | PageUp
    | PageDown
    | Other

  /** The lines and the cursor: cx runes into line cy. */
  datatype Doc = Doc(text: seq<string>, cx: int, cy: int)

  predicate InText(d: Doc) {
    0 <= d.cy < |d.text| && 0 <= d.cx <= |d.text[d.cy]|
  }

  // ---- what a key does to the lines ----

  function JoinNext(text: seq<string>, i: nat): seq<string>
    requires i + 1 < |text|
  {
    text[..i] + [text[i] + text[i + 1]] + text[i + 2..]
  }

  function Acted(d: Doc, key: Key, rows: int): Doc
    requires InText(d)
  {
    var l := d.text[d.cy];
    match key
    case Typed(rs) => Doc(d.text[d.cy := l[..d.cx] + rs + l[d.cx..]], d.cx + |rs|, d.cy)
    case Enter => Doc(d.text[..d.cy] + [l[..d.cx], l[d.cx..]] + d.text[d.cy + 1..], 0, d.cy + 1)
    case Backspace =>
      if d.cx > 0 then Doc(d.text[d.cy := l[..d.cx - 1] + l[d.cx..]], d.cx - 1, d.cy)
      else if d.cy > 0 then Doc(JoinNext(d.text, d.cy - 1), |d.text[d.cy - 1]|, d.cy - 1)
      else d
    case Delete =>
      if d.cx < |l| then d.(text := d.text[d.cy := l[..d.cx] + l[d.cx + 1..]])
      else if d.cy + 1 < |d.text| then d.(text := JoinNext(d.text, d.cy))
      else d
    case CutToEnd =>
      if d.cx < |l| then d.(text := d.text[d.cy := l[..d.cx]])
      else if d.cy + 1 < |d.text| then d.(text := JoinNext(d.text, d.cy))
      else d
    case Up => d.(cy := d.cy - 1)
    case Down => d.(cy := d.cy + 1)
    case Left => d.(cx := d.cx - 1)
    case Right => d.(cx := d.cx + 1)
    case Home => d.(cx := 0)
    case EndOfLine => d.(cx := |l|)
    case PageUp => d.(cy := d.cy - rows)
    case PageDown => d.(cy := d.cy + rows)
    case Other => d
  }

  function Within(x: int, most: nat): (r: nat)
    ensures r <= most
  {
    if x < 0 then 0 else if x > most then most else x
  }

  function Clamped(d: Doc): (r: Doc)
    requires d.text != []
    ensures InText(r)
  {
    var cy := Within(d.cy, |d.text| - 1);
    Doc(d.text, Within(d.cx, |d.text[cy]|), cy)
  }

  function Press(d: Doc, key: Key, rows: int): (r: Doc)
    requires InText(d)
    ensures InText(r)
  {
    Clamped(Acted(d, key, rows))
  }

  // ---- the flat text ----

  /** The lines with a newline between each two. */
  function Join(text: seq<string>): string {
    if text == [] then [] else if |text| == 1 then text[0] else text[0] + ['\n'] + Join(text[1..])
  }

  /** How far into the flat text the cursor is. */
  function Offset(text: seq<string>, cx: nat, cy: nat): nat
    requires cy < |text|
  {
    if cy == 0 then cx else |text[0]| + 1 + Offset(text[1..], cx, cy - 1)
  }

  /** The flat text, cut at the cursor. */
  datatype View = View(before: string, after: string)

  function Before(d: Doc): string
    requires InText(d)
  {
    Join(d.text[..d.cy] + [d.text[d.cy][..d.cx]])
  }

  function After(d: Doc): string
    requires InText(d)
  {
    Join([d.text[d.cy][d.cx..]] + d.text[d.cy + 1..])
  }

  function ViewOf(d: Doc): View
    requires InText(d)
  {
    View(Before(d), After(d))
  }

  /** Where the next newline is, or the end. */
  function NextNewline(s: string): (k: nat)
    ensures k <= |s| && (k < |s| ==> s[k] == '\n') && '\n' !in s[..k]
  {
    if s == [] || s[0] == '\n' then 0
    else
      var k := NextNewline(s[1..]);
      assert s[..k + 1] == [s[0]] + s[1..][..k];
      k + 1
  }

  /** How many runes are after the last newline. */
  function Column(s: string): (k: nat)
    ensures k <= |s| && (k < |s| ==> s[|s| - 1 - k] == '\n')
    ensures forall i :: |s| - k <= i < |s| ==> s[i] != '\n'
    decreases |s|
  {
    if s == [] || s[|s| - 1] == '\n' then 0
    else Column(s[..|s| - 1]) + 1
  }

  /** What a key means on the flat text: an insertion or a deletion at the cursor, or a move of the cursor that
      does not leave its line. Moves from line to line are not given here. */
  function Edited(v: View, key: Key): View {
    var b, a := v.before, v.after;
    match key
    case Typed(rs) => View(b + rs, a)
    case Enter => View(b + ['\n'], a)
    case Backspace => if b == [] then v else View(b[..|b| - 1], a)
    case Delete => if a == [] then v else View(b, a[1..])
    case CutToEnd =>
      if a == [] then v else if a[0] == '\n' then View(b, a[1..]) else View(b, a[NextNewline(a)..])
    case Left => if Column(b) == 0 then v else View(b[..|b| - 1], [b[|b| - 1]] + a)
    case Right => if NextNewline(a) == 0 then v else View(b + [a[0]], a[1..])
    case Home => View(b[..|b| - Column(b)], b[|b| - Column(b)..] + a)
    case EndOfLine => View(b + a[..NextNewline(a)], a[NextNewline(a)..])
    case _ => v
  }

  predicate LineToLine(key: Key) {
    key.Up? || key.Down? || key.PageUp? || key.PageDown?
  }

  // ---- joining ----

  lemma {:induction false} JoinAppend(a: seq<string>, b: seq<string>)
    requires a != [] && b != []
    ensures Join(a + b) == Join(a) + ['\n'] + Join(b)
    decreases |a|
  {
    assert (a + b)[0] == a[0] && (a + b)[1..] == a[1..] + b;
    if |a| == 1 {
      assert (a + b)[1..] == b;
    } else {
      JoinAppend(a[1..], b);
      assert Join(a + b) == a[0] + ['\n'] + (Join(a[1..]) + ['\n'] + Join(b));
      Assoc(a[0] + ['\n'], Join(a[1..]), ['\n']);
      Assoc(a[0] + ['\n'], Join(a[1..]) + ['\n'], Join(b));
    }
  }

  /** A line's first part joins with what is before it, and the rest with what comes after. */
  lemma JoinFirst(x: string, y: string, b: seq<string>)
    ensures Join([x + y] + b) == x + Join([y] + b)
  {
    if b == [] {
      assert [x + y] + b == [x + y] && [y] + b == [y];
    } else {
      JoinAppend([x + y], b);
      JoinAppend([y], b);
      Assoc(x, y, ['\n']);
      Assoc(x, y + ['\n'], Join(b));
    }
  }

  lemma JoinLast(a: seq<string>, x: string, y: string)
    ensures Join(a + [x + y]) == Join(a + [x]) + y
  {
    if a == [] {
      assert a + [x + y] == [x + y] && a + [x] == [x];
    } else {
      JoinAppend(a, [x + y]);
      JoinAppend(a, [x]);
      Assoc(Join(a) + ['\n'], x, y);
    }
  }

  lemma JoinMiddle(a: seq<string>, x: string, y: string, b: seq<string>)
    ensures Join(a + [x + y] + b) == Join(a + [x]) + Join([y] + b)
  {
    Assoc(a, [x + y], b);
    JoinFirst(x, y, b);
    if a == [] {
      assert a + ([x + y] + b) == [x + y] + b && a + [x] == [x];
    } else {
      JoinAppend(a, [x + y] + b);
      JoinAppend(a, [x]);
      Assoc(Join(a) + ['\n'], x, Join([y] + b));
    }
  }

  /** The flat text is what is before the cursor and what is after it, and the cursor's offset is the length of
      the first. */
  lemma CutAtCursor(d: Doc)
    requires InText(d)
    ensures Join(d.text) == Before(d) + After(d)
    ensures Offset(d.text, d.cx, d.cy) == |Before(d)|
  {
    var l := d.text[d.cy];
    assert l == l[..d.cx] + l[d.cx..];
    assert d.text == d.text[..d.cy] + [l] + d.text[d.cy + 1..];
    JoinMiddle(d.text[..d.cy], l[..d.cx], l[d.cx..], d.text[d.cy + 1..]);
    OffsetIs(d.text, d.cx, d.cy);
  }

  lemma {:induction false} OffsetIs(text: seq<string>, cx: nat, cy: nat)
    requires cy < |text| && cx <= |text[cy]|
    ensures Offset(text, cx, cy) == |Join(text[..cy] + [text[cy][..cx]])|
    decreases cy
  {
    var s := text[..cy] + [text[cy][..cx]];
    if cy == 0 {
      assert s == [text[0][..cx]];
    } else {
      assert s[1..] == text[1..][..cy - 1] + [text[1..][cy - 1][..cx]];
      OffsetIs(text[1..], cx, cy - 1);
    }
  }

  // ---- the keys on the flat text ----

  /** No line has a newline in it. */
  predicate Plain(text: seq<string>) {
    forall i :: 0 <= i < |text| ==> '\n' !in text[i]
  }

  /** What comes before the cursor's line, and what comes after it. */
  function Above(d: Doc): string
    requires InText(d)
  {
    Join(d.text[..d.cy] + [""])
  }

  function Below(d: Doc): string
    requires InText(d)
  {
    Join([""] + d.text[d.cy + 1..])
  }

  lemma AroundCursor(d: Doc)
    requires InText(d)
    ensures Before(d) == Above(d) + d.text[d.cy][..d.cx] && After(d) == d.text[d.cy][d.cx..] + Below(d)
    ensures if d.cy == 0 then Above(d) == [] else Above(d) != [] && Above(d)[|Above(d)| - 1] == '\n'
    ensures if d.cy + 1 == |d.text| then Below(d) == [] else Below(d) != [] && Below(d)[0] == '\n'
  {
    var l := d.text[d.cy];
    assert "" + l[..d.cx] == l[..d.cx] && l[d.cx..] + "" == l[d.cx..];
    JoinLast(d.text[..d.cy], "", l[..d.cx]);
    JoinFirst(l[d.cx..], "", d.text[d.cy + 1..]);
    if d.cy > 0 {
      JoinAppend(d.text[..d.cy], [""]);
    }
    if d.cy + 1 < |d.text| {
      JoinAppend([""], d.text[d.cy + 1..]);
    }
  }

  lemma ColumnIs(above: string, x: string)
    requires above == [] || above[|above| - 1] == '\n'
    ensures Column(above + x) <= |x| && (Column(above + x) == |x| <==> '\n' !in x)
  {
    hide Column;
    var s := above + x;
    var k := Column(s);
    assert forall i :: 0 <= i < |x| ==> s[|above| + i] == x[i];
    assert above != [] ==> s[|above| - 1] == '\n';
    if '\n' !in x {
      ColumnOf(above, x);
    }
  }

  lemma NextIs(x: string, below: string)
    requires below == [] || below[0] == '\n'
    ensures NextNewline(x + below) <= |x| && (NextNewline(x + below) == |x| <==> '\n' !in x)
  {
    hide NextNewline;
    var s := x + below;
    var k := NextNewline(s);
    assert forall i :: 0 <= i < |x| ==> s[i] == x[i];
    assert forall i :: 0 <= i < k ==> s[..k][i] == s[i] != '\n';
    if '\n' !in x {
      NextOf(x, below);
    }
  }

  lemma {:induction false} ColumnOf(above: string, x: string)
    requires above == [] || above[|above| - 1] == '\n'
    requires '\n' !in x
    ensures Column(above + x) == |x|
    decreases |x|
  {
    if x == [] {
      assert above + x == above;
    } else {
      var s := above + x;
      assert s[..|s| - 1] == above + x[..|x| - 1];
      assert s[|s| - 1] == x[|x| - 1];
      ColumnOf(above, x[..|x| - 1]);
    }
  }

  lemma {:induction false} NextOf(x: string, below: string)
    requires below == [] || below[0] == '\n'
    requires '\n' !in x
    ensures NextNewline(x + below) == |x|
    decreases |x|
  {
    if x == [] {
      assert x + below == below;
    } else {
      assert (x + below)[1..] == x[1..] + below;
      NextOf(x[1..], below);
    }
  }

  lemma TypedEdits(d: Doc, rs: string)
    requires InText(d)
    ensures ViewOf(Press(d, Typed(rs), 0)) == Edited(ViewOf(d), Typed(rs))
  {
    var e := Acted(d, Typed(rs), 0);
    var l := d.text[d.cy];
    assert e.text[..d.cy] == d.text[..d.cy] && e.text[d.cy + 1..] == d.text[d.cy + 1..];
    assert e.text[d.cy][..e.cx] == l[..d.cx] + rs && e.text[d.cy][e.cx..] == l[d.cx..];
    JoinLast(d.text[..d.cy], l[..d.cx], rs);
  }

  lemma EnterEdits(d: Doc)
    requires InText(d)
    ensures ViewOf(Press(d, Enter, 0)) == Edited(ViewOf(d), Enter)
  {
    var e := Acted(d, Enter, 0);
    var l := d.text[d.cy];
    assert e.text[..e.cy] == d.text[..d.cy] + [l[..d.cx]] && e.text[e.cy] == l[d.cx..];
    assert e.text[e.cy][..0] == "" && e.text[e.cy][0..] == l[d.cx..];
    assert e.text[e.cy + 1..] == d.text[d.cy + 1..];
    JoinAppend(e.text[..e.cy], [""]);
  }

  lemma BackspaceEdits(d: Doc)
    requires InText(d)
    ensures ViewOf(Press(d, Backspace, 0)) == Edited(ViewOf(d), Backspace)
  {
    hide Join;
    AroundCursor(d);
    if d.cx > 0 {
      BackspaceInLine(d);
    } else if d.cy > 0 {
      BackspaceJoins(d);
    }
  }

  lemma BackspaceInLine(d: Doc)
    requires InText(d) && d.cx > 0
    ensures var e := Press(d, Backspace, 0);
      Before(d) != [] && Before(e) == Before(d)[..|Before(d)| - 1] && After(e) == After(d)
  {
    hide Join;
    AroundCursor(d);
    var e := Acted(d, Backspace, 0);
    var l := d.text[d.cy];
    assert e.text[..d.cy] == d.text[..d.cy] && e.text[d.cy + 1..] == d.text[d.cy + 1..];
    assert e.text[d.cy][..e.cx] == l[..d.cx - 1] && e.text[d.cy][e.cx..] == l[d.cx..];
    AroundCursor(e);
  }

  lemma BackspaceJoins(d: Doc)
    requires InText(d) && d.cx == 0 && d.cy > 0
    ensures var e := Press(d, Backspace, 0);
      Before(d) != [] && Before(e) == Before(d)[..|Before(d)| - 1] && After(e) == After(d)
  {
    hide Join;
    var e := Acted(d, Backspace, 0);
    var l, prev := d.text[d.cy], d.text[d.cy - 1];
    assert d.text[..d.cy] == d.text[..d.cy - 1] + [prev] == e.text[..e.cy] + [e.text[e.cy][..e.cx]];
    assert e.text[e.cy][e.cx..] == l[d.cx..] && e.text[e.cy + 1..] == d.text[d.cy + 1..];
    assert l[..0] == "";
    JoinAppend(d.text[..d.cy], [""]);
    JoinNothing();
  }

  lemma JoinNothing()
    ensures Join([""]) == ""
  {
  }

  /** Joining the next line on is taking the newline at the cursor out. */
  lemma JoinNextEdits(d: Doc)
    requires InText(d) && d.cx == |d.text[d.cy]| && d.cy + 1 < |d.text|
    ensures After(d) == ['\n'] + After(d.(text := JoinNext(d.text, d.cy)))
    ensures Before(d) == Before(d.(text := JoinNext(d.text, d.cy)))
  {
    hide Join, JoinNext;
    NextParts(d.text, d.cy);
    assert d.text[d.cy][..d.cx] == d.text[d.cy] && d.text[d.cy][d.cx..] == "";
    JoinAppend([""], d.text[d.cy + 1..]);
    JoinNothing();
    assert "" + ['\n'] == ['\n'];
  }

  /** A line and the next, joined, and what is around them. */
  lemma NextParts(text: seq<string>, i: nat)
    requires i + 1 < |text|
    ensures
      var t := JoinNext(text, i);
      && i < |t| && t[..i] == text[..i] && t[i][..|text[i]|] == text[i]
      && [t[i][|text[i]|..]] + t[i + 1..] == text[i + 1..]
  {
    var t := JoinNext(text, i);
    assert t[i] == text[i] + text[i + 1] && t[i + 1..] == text[i + 2..];
    assert t[i][|text[i]|..] == text[i + 1];
  }

  lemma DeleteEdits(d: Doc)
    requires InText(d)
    ensures ViewOf(Press(d, Delete, 0)) == Edited(ViewOf(d), Delete)
  {
    hide Join;
    AroundCursor(d);
    var e := Acted(d, Delete, 0);
    var l := d.text[d.cy];
    if d.cx < |l| {
      assert e.text[..d.cy] == d.text[..d.cy] && e.text[d.cy + 1..] == d.text[d.cy + 1..];
      assert e.text[d.cy][..d.cx] == l[..d.cx] && e.text[d.cy][d.cx..] == l[d.cx + 1..];
      AroundCursor(e);
    } else if d.cy + 1 < |d.text| {
      JoinNextEdits(d);
    }
  }

  /** Is there no newline in the line where the key would take it for the line's end? */
  predicate AsMeant(d: Doc, key: Key)
    requires InText(d)
  {
    var l := d.text[d.cy];
    match key
    case CutToEnd => '\n' !in l[d.cx..] || |l| == d.cx + 1
    case Left => d.cx == 0 || l[d.cx - 1] != '\n'
    case Right => d.cx == |l| || l[d.cx] != '\n'
    case Home => '\n' !in l[..d.cx]
    case EndOfLine => '\n' !in l[d.cx..]
    case _ => true
  }

  lemma CutEdits(d: Doc)
    requires InText(d)
    ensures ViewOf(Press(d, CutToEnd, 0)) == Edited(ViewOf(d), CutToEnd) <==> AsMeant(d, CutToEnd)
  {
    hide NextNewline, Join;
    AroundCursor(d);
    var e := Acted(d, CutToEnd, 0);
    var l := d.text[d.cy];
    if d.cx < |l| {
      assert e.text[..d.cy] == d.text[..d.cy] && e.text[d.cy + 1..] == d.text[d.cy + 1..];
      assert e.text[d.cy][..d.cx] == l[..d.cx] && e.text[d.cy][d.cx..] == "";
      AroundCursor(e);
      CutAfter(l[d.cx..], Below(d));
    } else if d.cy + 1 < |d.text| {
      JoinNextEdits(d);
    }
  }

  /** Cutting to the next newline cuts to the line's end. */
  lemma CutAfter(x: string, below: string)
    requires x != [] && (below == [] || below[0] == '\n')
    ensures
      var a := x + below;
      below == (if a[0] == '\n' then a[1..] else a[NextNewline(a)..]) <==> '\n' !in x || |x| == 1
  {
    hide NextNewline;
    NextIs(x, below);
    var a := x + below;
    assert |a| == |x| + |below| && a[|x|..] == below && a[0] == x[0];
    if |x| == 1 && x[0] != '\n' {
      assert '\n' !in x;
    }
  }

  /** A cursor moved along a line between what is above and what is below. */
  lemma Moved(above: string, l: string, below: string, cx: nat, to: nat)
    requires cx <= |l| && to <= |l|
    ensures to <= cx ==> above + l[..to] == (above + l[..cx])[..|above| + to]
    ensures to <= cx ==> l[to..] + below == (above + l[..cx])[|above| + to..] + (l[cx..] + below)
    ensures to >= cx ==> above + l[..to] == above + l[..cx] + (l[cx..] + below)[..to - cx]
    ensures to >= cx ==> l[to..] + below == (l[cx..] + below)[to - cx..]
  {
  }

  lemma MovedTo(d: Doc, to: nat)
    requires InText(d) && to <= |d.text[d.cy]|
    ensures to <= d.cx ==> d.cx <= |Before(d)|
    ensures to <= d.cx ==> Before(d.(cx := to)) == Before(d)[..|Before(d)| - (d.cx - to)]
    ensures to <= d.cx ==> After(d.(cx := to)) == Before(d)[|Before(d)| - (d.cx - to)..] + After(d)
    ensures to >= d.cx ==> to - d.cx <= |After(d)| && Before(d.(cx := to)) == Before(d) + After(d)[..to - d.cx]
    ensures to >= d.cx ==> After(d.(cx := to)) == After(d)[to - d.cx..]
  {
    AroundCursor(d);
    AroundCursor(d.(cx := to));
    Moved(Above(d), d.text[d.cy], Below(d), d.cx, to);
  }

  /** How far the cursor can go each way without leaving its line, told from the flat text. */
  lemma RoomOnLine(d: Doc)
    requires InText(d)
    ensures Column(Before(d)) == d.cx <==> '\n' !in d.text[d.cy][..d.cx]
    ensures NextNewline(After(d)) == |d.text[d.cy]| - d.cx <==> '\n' !in d.text[d.cy][d.cx..]
    ensures Column(Before(d)) <= d.cx && NextNewline(After(d)) <= |d.text[d.cy]| - d.cx
  {
    hide Column, NextNewline;
    var l := d.text[d.cy];
    AroundCursor(d);
    ColumnIs(Above(d), l[..d.cx]);
    NextIs(l[d.cx..], Below(d));
  }

  lemma AtEdges(above: string, x: string, y: string, below: string)
    requires above == [] || above[|above| - 1] == '\n'
    requires below == [] || below[0] == '\n'
    ensures Column(above + x) == 0 <==> x == [] || x[|x| - 1] == '\n'
    ensures NextNewline(y + below) == 0 <==> y == [] || y[0] == '\n'
  {
    var s, t := above + x, y + below;
    assert s != [] ==> s[|s| - 1] == if x == [] then above[|above| - 1] else x[|x| - 1];
    assert t != [] ==> t[0] == if y == [] then below[0] else y[0];
  }

  lemma NoRoom(d: Doc)
    requires InText(d)
    ensures Column(Before(d)) == 0 <==> d.cx == 0 || d.text[d.cy][d.cx - 1] == '\n'
    ensures NextNewline(After(d)) == 0 <==> d.cx == |d.text[d.cy]| || d.text[d.cy][d.cx] == '\n'
  {
    hide Before, After, Above, Below, Column, NextNewline;
    AroundCursor(d);
    AtEdges(Above(d), d.text[d.cy][..d.cx], d.text[d.cy][d.cx..], Below(d));
  }

  // The keys that stay on the line.

  lemma LeftEdits(d: Doc)
    requires InText(d)
    ensures ViewOf(Press(d, Left, 0)) == Edited(ViewOf(d), Left) <==> AsMeant(d, Left)
  {
    hide Before, After, Column, NextNewline;
    NoRoom(d);
    var to := if d.cx == 0 then 0 else d.cx - 1;
    assert Press(d, Left, 0) == d.(cx := to);
    MovedTo(d, to);
    assert [] + After(d) == After(d);
  }

  lemma PressRight(d: Doc)
    requires InText(d)
    ensures Press(d, Right, 0) == if d.cx < |d.text[d.cy]| then d.(cx := d.cx + 1) else d
  {
  }

  lemma PastRune(d: Doc)
    requires InText(d) && d.cx < |d.text[d.cy]|
    ensures After(d) != [] && ViewOf(d.(cx := d.cx + 1)) == View(Before(d) + [After(d)[0]], After(d)[1..])
    ensures ViewOf(d.(cx := d.cx + 1)) != ViewOf(d)
  {
    hide Before, After;
    MovedTo(d, d.cx + 1);
    assert After(d)[..1] == [After(d)[0]];
    assert |Before(d.(cx := d.cx + 1))| == |Before(d)| + 1;
  }

  lemma RightEdits(d: Doc)
    requires InText(d)
    ensures ViewOf(Press(d, Right, 0)) == Edited(ViewOf(d), Right) <==> AsMeant(d, Right)
  {
    hide Press, Before, After, Column, NextNewline;
    PressRight(d);
    NoRoom(d);
    if d.cx < |d.text[d.cy]| {
      PastRune(d);
    }
  }

  lemma HomeEdits(d: Doc)
    requires InText(d)
    ensures ViewOf(Press(d, Home, 0)) == Edited(ViewOf(d), Home) <==> AsMeant(d, Home)
  {
    hide Before, After, Column, NextNewline;
    RoomOnLine(d);
    assert Press(d, Home, 0) == d.(cx := 0);
    MovedTo(d, 0);
  }

  lemma EndEdits(d: Doc)
    requires InText(d)
    ensures ViewOf(Press(d, EndOfLine, 0)) == Edited(ViewOf(d), EndOfLine) <==> AsMeant(d, EndOfLine)
  {
    hide Before, After, Column, NextNewline;
    RoomOnLine(d);
    var to := |d.text[d.cy]|;
    assert Press(d, EndOfLine, 0) == d.(cx := to);
    MovedTo(d, to);
  }

  /** Every key that is not a move from line to line does to the flat text, cut at the cursor, what it means there,
      exactly when it meets no newline inside a line. */
  lemma KeyEdits(d: Doc, key: Key, rows: int)
    requires InText(d) && !LineToLine(key)
    ensures ViewOf(Press(d, key, rows)) == Edited(ViewOf(d), key) <==> AsMeant(d, key)
  {
    hide Before, After, Column, NextNewline;
    match key {
      case Typed(rs) => TypedEdits(d, rs);
      case Enter => EnterEdits(d);
      case Backspace => BackspaceEdits(d);
      case Delete => DeleteEdits(d);
      case CutToEnd => CutEdits(d);
      case Left => LeftEdits(d);
      case Right => RightEdits(d);
      case Home => HomeEdits(d);
      case EndOfLine => EndEdits(d);
      case _ =>
    }
  }

  /** The keys that go from line to line stop at the first and last line, and at the end of a shorter one. */
  lemma LineMoves(d: Doc, key: Key, rows: nat)
    requires InText(d) && LineToLine(key)
    ensures
      var far := if key.Up? || key.Down? then 1 else rows;
      var e := Press(d, key, rows);
      && e.text == d.text
      && (key.Up? || key.PageUp? ==> e.cy == if d.cy < far then 0 else d.cy - far)
      && (key.Down? || key.PageDown? ==> e.cy == if d.cy + far < |d.text| then d.cy + far else |d.text| - 1)
      && e.cx == if d.cx <= |d.text[e.cy]| then d.cx else |d.text[e.cy]|
  {
  }

  /** Does the key mark the text as changed? */
  predicate Marks(d: Doc, key: Key)
    requires InText(d)
  {
    match key
    case Typed(rs) => rs != []
    case Enter => true
    case Backspace => d.cx > 0 || d.cy > 0
    case Delete => d.cx < |d.text[d.cy]| || d.cy + 1 < |d.text|
    case CutToEnd => true
    case _ => false
  }

  /** A key marks the text exactly when it changes it, but for Ctrl+K at the very end, which marks it too. */
  lemma MarksWhatChanges(d: Doc, key: Key, rows: int)
    requires InText(d)
    ensures Press(d, key, rows).text != d.text <==>
      Marks(d, key) && !(key.CutToEnd? && d.cx == |d.text[d.cy]| && d.cy + 1 == |d.text|)
  {
    var l, e := d.text[d.cy], Acted(d, key, rows);
    if key.Typed? && key.runes != [] {
      assert |e.text[d.cy]| == |l| + |key.runes|;
    } else if key.Typed? {
      assert l[..d.cx] + [] + l[d.cx..] == l;
    } else if key.Backspace? && d.cx > 0 {
      assert |e.text[d.cy]| == |l| - 1;
    } else if (key.Delete? || key.CutToEnd?) && d.cx < |l| {
      assert |e.text[d.cy]| < |l|;
    } else if key.Enter? || ((key.Backspace? || key.Delete? || key.CutToEnd?) && Marks(d, key)) {
      assert |e.text| != |d.text| || e.text == d.text;
    }
  }

  // ---- saving and loading ----

  /** strings.Split at newlines. */
  function Split(s: string): (text: seq<string>)
    ensures text != [] && Plain(text) && Join(text) == s
    decreases |s|
  {
    var k := NextNewline(s);
    if k == |s| then
      assert s[..k] == s;
      [s]
    else
      var rest := Split(s[k + 1..]);
      assert s == s[..k] + [s[k]] + s[k + 1..];
      assert ([s[..k]] + rest)[1..] == rest;
      [s[..k]] + rest
  }

  /** What a file's contents are read as: a newline at the very end begins no line. */
  function Loaded(content: string): seq<string> {
    Split(if EndsLine(content) then content[..|content| - 1] else content)
  }

  /** What is written: every line with a newline after it. */
  function Saved(text: seq<string>): string {
    if text == [] then [] else text[0] + ['\n'] + Saved(text[1..])
  }

  lemma {:induction false} SavedIsJoined(text: seq<string>)
    requires text != []
    ensures Saved(text) == Join(text) + ['\n']
    decreases |text|
  {
    if |text| == 1 {
      assert Saved(text[1..]) == [];
    } else {
      SavedIsJoined(text[1..]);
      Assoc(text[0] + ['\n'], Join(text[1..]), ['\n']);
    }
  }

  lemma {:induction false} SplitJoined(text: seq<string>)
    requires text != [] && Plain(text)
    ensures Split(Join(text)) == text
    decreases |text|
  {
    var s := Join(text);
    if |text| == 1 {
      assert text[0] + [] == text[0];
      NextOf(text[0], []);
    } else {
      var below := ['\n'] + Join(text[1..]);
      Assoc(text[0], ['\n'], Join(text[1..]));
      NextOf(text[0], below);
      assert s[|text[0]| + 1..] == Join(text[1..]) && s[..|text[0]|] == text[0];
      SplitJoined(text[1..]);
    }
  }

  /** A saved buffer reads back as the same lines exactly when no line holds a newline, which only a broken
      multi-byte sequence at the keyboard can put there. */
  lemma ReloadGivesTheSame(text: seq<string>)
    requires text != []
    ensures Loaded(Saved(text)) == text <==> Plain(text)
  {
    SavedIsJoined(text);
    assert (Join(text) + ['\n'])[..|Join(text)|] == Join(text);
    if Plain(text) {
      SplitJoined(text);
    }
  }

  /** Loading and saving unchanged adds the newline a file does not end with, and changes nothing else. */
  lemma SaveGivesTheSame(content: string)
    ensures Saved(Loaded(content)) == if EndsLine(content) then content else content + ['\n']
  {
    SavedIsJoined(Loaded(content));
    if EndsLine(content) {
      assert content[..|content| - 1] + ['\n'] == content;
    }
  }

  /** The flat text and the place in it tell the lines and the cursor. */
  lemma ViewTellsAll(d: Doc, e: Doc)
    requires InText(d) && InText(e) && Plain(d.text) && Plain(e.text) && ViewOf(d) == ViewOf(e)
    ensures d == e
  {
    CutAtCursor(d);
    CutAtCursor(e);
    SplitJoined(d.text);
    SplitJoined(e.text);
    RoomOnLine(d);
    RoomOnLine(e);
    if d.cy < e.cy {
      OffsetGrows(d.text, d.cx, d.cy, e.cx, e.cy);
    } else if e.cy < d.cy {
      OffsetGrows(d.text, e.cx, e.cy, d.cx, d.cy);
    }
  }

  lemma {:induction false} OffsetGrows(text: seq<string>, cx: nat, cy: nat, cx2: nat, cy2: nat)
    requires cy < cy2 < |text| && cx <= |text[cy]|
    ensures Offset(text, cx, cy) < Offset(text, cx2, cy2)
    decreases cy
  {
    if cy > 0 {
      OffsetGrows(text[1..], cx, cy - 1, cx2, cy2 - 1);
    }
  }

  // ---- whole runs ----

  function PressAll(d: Doc, keys: seq<Key>, rows: int): (r: Doc)
    requires InText(d)
    ensures InText(r)
    decreases |keys|
  {
    if keys == [] then d else PressAll(Press(d, keys[0], rows), keys[1..], rows)
  }

  predicate TypesNoNewline(keys: seq<Key>) {
    forall i :: 0 <= i < |keys| && keys[i].Typed? ==> '\n' !in keys[i].runes
  }

  lemma PressKeepsPlain(d: Doc, key: Key, rows: int)
    requires InText(d) && Plain(d.text) && (key.Typed? ==> '\n' !in key.runes)
    ensures Plain(Press(d, key, rows).text)
  {
  }

  /** After any keys, unless a typed rune was itself a newline, what is saved reads back as the lines shown. */
  lemma {:induction false} RunReloads(d: Doc, keys: seq<Key>, rows: int)
    requires InText(d) && Plain(d.text) && TypesNoNewline(keys)
    ensures Plain(PressAll(d, keys, rows).text)
    ensures Loaded(Saved(PressAll(d, keys, rows).text)) == PressAll(d, keys, rows).text
    decreases |keys|
  {
    if keys == [] {
      ReloadGivesTheSame(d.text);
    } else {
      PressKeepsPlain(d, keys[0], rows);
      RunReloads(Press(d, keys[0], rows), keys[1..], rows);
    }
  }

  /** Backspace takes back the last rune typed, a newline made by Enter included. */
  lemma BackspaceTakesBack(d: Doc, key: Key, rows: int)
    requires InText(d) && Plain(d.text)
    requires key.Enter? || (key.Typed? && |key.runes| == 1 && key.runes[0] != '\n')
    ensures Press(Press(d, key, rows), Backspace, rows) == d
  {
    hide Press, Edited, ViewOf, Plain;
    var e := Press(d, key, rows);
    PressKeepsPlain(d, key, rows);
    PressKeepsPlain(e, Backspace, rows);
    KeyEdits(d, key, rows);
    KeyEdits(e, Backspace, rows);
    EditTakenBack(ViewOf(d), key);
    ViewTellsAll(Press(e, Backspace, rows), d);
  }

  lemma EditTakenBack(v: View, key: Key)
    requires key.Enter? || (key.Typed? && |key.runes| == 1)
    ensures Edited(Edited(v, key), Backspace) == v
  {
    var c := if key.Enter? then ['\n'] else key.runes;
    assert (v.before + c)[..|v.before|] == v.before;
  }

  // ---- slices ----

  /** A slice from the start of its array. Every line is one: nothing ever cuts the front off a line in place. */
  datatype Slice = Slice(buf: array<char>, len: nat)

  predicate Fits(l: Slice) {
    l.len <= l.buf.Length
  }

  function Runes(l: Slice): string
    reads l.buf
    requires Fits(l)
  {
    l.buf[..l.len]
  }

  /** append: in place when the array has room after the slice, in a new and perhaps roomier array otherwise. */
  method Append(l: Slice, tail: string) returns (r: Slice)
    requires Fits(l)
    modifies l.buf
    ensures Fits(r) && Runes(r) == old(Runes(l)) + tail
    ensures r.buf == l.buf || fresh(r.buf)
  {
    var n := l.len + |tail|;
    var buf := l.buf;
    if n > buf.Length {
      var room: nat :| n <= room;
      buf := new char[room];
      forall i | 0 <= i < l.len {
        buf[i] := l.buf[i];
      }
    }
    assert buf[..l.len] == old(Runes(l));
    forall i | 0 <= i < |tail| {
      buf[l.len + i] := tail[i];
    }
    r := Slice(buf, n);
    assert Runes(r) == buf[..l.len] + tail;
  }

  /** Slices that hold these lines, no two of them in one array. */
  ghost predicate Hold(lines: seq<Slice>, text: seq<string>)
    reads set i | 0 <= i < |lines| :: lines[i].buf
  {
    && |lines| == |text|
    && (forall i :: 0 <= i < |lines| ==> Fits(lines[i]) && Runes(lines[i]) == text[i])
    && Apart(lines)
  }

  ghost predicate Apart(lines: seq<Slice>) {
    forall i, j :: 0 <= i < j < |lines| ==> lines[i].buf != lines[j].buf
  }

  /** ed.lines[i] = append(ed.lines[i][:keep], tail...), and no other line is touched by it. */
  method AppendAt(lines: seq<Slice>, ghost text: seq<string>, i: nat, keep: nat, tail: string) returns (r: seq<Slice>)
    requires Hold(lines, text) && i < |lines| && keep <= lines[i].len
    modifies lines[i].buf
    ensures Hold(r, text[i := text[i][..keep] + tail])
    ensures |r| == |lines| && r == lines[i := r[i]] && (r[i].buf == lines[i].buf || fresh(r[i].buf))
  {
    assert lines[i].buf[..keep] == text[i][..keep];
    var l := Append(Slice(lines[i].buf, keep), tail);
    r := lines[i := l];
  }

  lemma HoldRemove(lines: seq<Slice>, text: seq<string>, i: nat)
    requires Hold(lines, text) && i < |lines|
    ensures Hold(lines[..i] + lines[i + 1..], text[..i] + text[i + 1..])
  {
  }

  lemma HoldInsert(lines: seq<Slice>, text: seq<string>, i: nat, l: Slice)
    requires Hold(lines, text) && i <= |lines| && Fits(l)
    requires forall k :: 0 <= k < |lines| ==> lines[k].buf != l.buf
    ensures Hold(lines[..i] + [l] + lines[i..], text[..i] + [Runes(l)] + text[i..])
  {
  }

  lemma HoldText(lines: seq<Slice>, text: seq<string>, i: nat, k: nat)
    requires Hold(lines, text) && i < |lines| && k <= lines[i].len
    ensures k <= |text[i]| && lines[i].buf[k..lines[i].len] == text[i][k..]
  {
  }

  /** A line cut short in place. */
  lemma HoldCut(lines: seq<Slice>, text: seq<string>, i: nat, keep: nat)
    requires Hold(lines, text) && i < |lines| && keep <= lines[i].len
    ensures Hold(lines[i := Slice(lines[i].buf, keep)], text[i := text[i][..keep]])
  {
    assert lines[i].buf[..keep] == text[i][..keep];
  }

  function BufsOf(lines: seq<Slice>): set<array<char>> {
    set i | 0 <= i < |lines| :: lines[i].buf
  }

  /** The next line appended to a line, and taken out of the list. */
  method JoinAt(lines: seq<Slice>, ghost text: seq<string>, i: nat) returns (r: seq<Slice>)
    requires Hold(lines, text) && i + 1 < |lines|
    modifies lines[i].buf
    ensures Hold(r, JoinNext(text, i))
    ensures fresh(BufsOf(r) - BufsOf(lines))
  {
    var next := lines[i + 1];
    HoldLengths(lines, text);
    assert text[i][..lines[i].len] == text[i];
    r := AppendAt(lines, text, i, lines[i].len, next.buf[..next.len]);
    ghost var t := text[i := text[i] + text[i + 1]];
    HoldRemove(r, t, i + 1);
    assert t[..i + 1] + t[i + 2..] == JoinNext(text, i);
    r := r[..i + 1] + r[i + 2..];
  }

  /** Two lines put in the place of one. */
  lemma TwoForOne(text: seq<string>, i: nat, a: string, b: string)
    requires i < |text|
    ensures
      var t := text[i := a];
      t[..i + 1] + [b] + t[i + 1..] == text[..i] + [a, b] + text[i + 1..]
  {
    var t := text[i := a];
    assert t[..i + 1] == text[..i] + [a] && t[i + 1..] == text[i + 1..];
  }

  /** A line split in two: the rest is copied, so that what is kept may later be appended to in place. */
  method SplitAt(lines: seq<Slice>, ghost text: seq<string>, i: nat, at: nat) returns (r: seq<Slice>)
    requires Hold(lines, text) && i < |lines| && at <= lines[i].len
    ensures Hold(r, text[..i] + [text[i][..at], text[i][at..]] + text[i + 1..])
    ensures fresh(BufsOf(r) - BufsOf(lines))
  {
    var l := lines[i];
    var none := new char[0];
    var rest := Append(Slice(none, 0), l.buf[at..l.len]);
    assert Runes(rest) == text[i][at..];
    HoldCut(lines, text, i, at);
    r := lines[i := Slice(l.buf, at)];
    ghost var t := text[i := text[i][..at]];
    HoldInsert(r, t, i + 1, rest);
    TwoForOne(text, i, text[i][..at], text[i][at..]);
    r := r[..i + 1] + [rest] + r[i + 1..];
  }

  /** A rune put into a line, which is made anew. */
  method InsertAt(lines: seq<Slice>, ghost text: seq<string>, i: nat, at: nat, c: char) returns (r: seq<Slice>)
    requires Hold(lines, text) && i < |lines| && at <= lines[i].len
    ensures Hold(r, text[i := text[i][..at] + [c] + text[i][at..]])
    ensures fresh(BufsOf(r) - BufsOf(lines))
  {
    var l := lines[i];
    var made := new char[l.len + 1];
    var nl := Append(Slice(made, 0), l.buf[..at]);
    nl := Append(nl, [c]);
    nl := Append(nl, l.buf[at..l.len]);
    assert Runes(nl) == text[i][..at] + [c] + text[i][at..];
    r := lines[i := nl];
  }

  lemma HoldLengths(lines: seq<Slice>, text: seq<string>)
    requires Hold(lines, text)
    ensures |lines| == |text|
    ensures forall i :: 0 <= i < |lines| ==> Fits(lines[i]) && lines[i].len == |text[i]|
  {
  }

  lemma TypedOneMore(d: Doc, rs: string, c: char, rows: int)
    requires InText(d)
    ensures InText(Acted(d, Typed(rs), rows))
    ensures Acted(Acted(d, Typed(rs), rows), Typed([c]), rows) == Acted(d, Typed(rs + [c]), rows)
  {
    var l := d.text[d.cy];
    var e := Acted(d, Typed(rs), rows);
    assert e.text[d.cy][..e.cx] == l[..d.cx] + rs && e.text[d.cy][e.cx..] == l[d.cx..];
    Assoc(l[..d.cx], rs, [c]);
  }

  lemma TypedNone(d: Doc, rows: int)
    requires InText(d)
    ensures Acted(d, Typed([]), rows) == d
  {
    var l := d.text[d.cy];
    assert l[..d.cx] + [] + l[d.cx..] == l;
  }

  method AddLine(lines: seq<Slice>, ghost text: seq<string>, line: string) returns (r: seq<Slice>)
    requires Hold(lines, text)
    ensures Hold(r, text + [line]) && fresh(BufsOf(r) - BufsOf(lines))
  {
    var none := new char[0];
    var l := Append(Slice(none, 0), line);
    assert Runes(l) == [] + line == line;
    HoldInsert(lines, text, |lines|, l);
    assert lines[..|lines|] + [l] + lines[|lines|..] == lines + [l];
    assert text[..|lines|] + [line] + text[|lines|..] == text + [line];
    r := lines + [l];
  }

  /** Each line in an array of its own, with room to spare or none. */
  method MakeLines(text: seq<string>) returns (r: seq<Slice>)
    ensures Hold(r, text) && fresh(BufsOf(r))
  {
    r := [];
    for k := 0 to |text|
      invariant Hold(r, text[..k]) && fresh(BufsOf(r))
    {
      r := AddLine(r, text[..k], text[k]);
      assert text[..k + 1] == text[..k] + [text[k]];
    }
    assert text[..|text|] == text;
  }

  /** The lines as they are written to the file. */
  method Written(lines: seq<Slice>, ghost text: seq<string>) returns (r: string)
    requires Hold(lines, text)
    ensures r == Saved(text)
  {
    r := [];
    for k := 0 to |lines|
      invariant r + Saved(text[k..]) == Saved(text)
    {
      assert text[k..][1..] == text[k + 1..];
      Assoc(r, text[k] + ['\n'], Saved(text[k + 1..]));
      Assoc(r, text[k], ['\n']);
      r := r + lines[k].buf[..lines[k].len] + ['\n'];
    }
    assert r + [] == r;
  }

  class Editor {
    const textRows: int
    const cols: int
    const filename: string
    var lines: seq<Slice>
    var cx: int
    var cy: int
    var topY: int
    var leftX: int
    var dirty: bool
    /** The lines as text, and the lines that were last loaded or written. */
    ghost var text: seq<string>
    ghost var stored: seq<string>

    constructor (name: string, content: string, columns: int, rows: int)
      ensures Valid() && fresh(Bufs()) && filename == name && cols == columns
      ensures text == stored == Loaded(content) && cx == 0 && cy == 0 && !dirty
    {
      hide Split, Apart, Fits, Runes;
      filename, cols := name, columns;
      textRows := if rows - 1 < 1 then 1 else rows - 1;
      lines, text, stored := [], Loaded(content), Loaded(content);
      cx, cy, topY, leftX, dirty := 0, 0, 0, 0, false;
      new;
      lines := MakeLines(Loaded(content));
      Clamp();
    }

    function Bufs(): set<array<char>>
      reads this`lines
    {
      BufsOf(lines)
    }

    ghost function At(): Doc
      reads this`text, this`cx, this`cy
    {
      Doc(text, cx, cy)
    }

    /** There is a line, no two lines share an array, and text unlike the stored one is marked. */
    ghost predicate Sound()
      reads this`lines, this`text, this`stored, this`dirty, Bufs()
    {
      lines != [] && Hold(lines, text) && (!dirty ==> text == stored)
    }

    /** And the cursor is in the text and inside the window. */
    ghost predicate Valid()
      reads this, Bufs()
    {
      Sound() && InText(At()) && textRows >= 1 && InWindow()
    }

    lemma SoundIs()
      requires Sound()
      ensures lines != [] && |lines| == |text| && (!dirty ==> text == stored)
      ensures forall i :: 0 <= i < |lines| ==> Fits(lines[i]) && lines[i].len == |text[i]|
    {
      HoldLengths(lines, text);
    }

    twostate lemma SoundStays()
      requires old(Sound())
      requires lines == old(lines) && text == old(text) && stored == old(stored) && dirty == old(dirty)
      requires forall i :: 0 <= i < |lines| ==> unchanged(lines[i].buf)
      ensures Sound()
    {
    }

    ghost predicate InWindow()
      reads this`cx, this`cy, this`topY, this`leftX
    {
      && 0 <= topY <= cy < topY + textRows
      && (cols >= 1 ==> 0 <= leftX <= cx < leftX + cols)
    }

    /** The first part of clamp: the cursor is brought into the text. */
    method ClampToText(ghost d: Doc)
      requires lines != [] && |lines| == |text| && d == At()
      requires forall i :: 0 <= i < |lines| ==> lines[i].len == |text[i]|
      modifies this`cx, this`cy
      ensures At() == Clamped(d)
    {
      if cy < 0 {
        cy := 0;
      }
      if cy >= |lines| {
        cy := |lines| - 1;
      }
      if cx < 0 {
        cx := 0;
      }
      if cx > lines[cy].len {
        cx := lines[cy].len;
      }
    }

    /** The second part of clamp: the window is moved to show the cursor. */
    method ScrollToCursor()
      requires 0 <= cx && 0 <= cy && textRows >= 1 && 0 <= topY && (cols >= 1 ==> 0 <= leftX)
      modifies this`topY, this`leftX
      ensures InWindow()
    {
      if cy < topY {
        topY := cy;
      }
      if cy >= topY + textRows {
        topY := cy - textRows + 1;
      }
      if cx < leftX {
        leftX := cx;
      }
      if cx >= leftX + cols {
        leftX := cx - cols + 1;
      }
    }

    method Clamp()
      requires Sound() && textRows >= 1 && 0 <= topY && (cols >= 1 ==> 0 <= leftX)
      modifies this`cx, this`cy, this`topY, this`leftX
      ensures Valid() && At() == Clamped(old(At()))
    {
      hide Hold, Sound;
      SoundIs();
      ClampToText(At());
      ScrollToCursor();
      SoundStays();
    }

    /** New lines put in place of the old, and the change marked. */
    method SetLines(r: seq<Slice>, ghost t: seq<string>)
      requires r != [] && Hold(r, t)
      modifies this`lines, this`text, this`dirty
      ensures Sound() && lines == r && text == t && dirty
    {
      lines := r;
      text := t;
      dirty := true;
    }

    method InsertRune(c: char)
      requires Sound() && InText(At())
      modifies this`lines, this`text, this`dirty, this`cx
      ensures Sound() && At() == Acted(old(At()), Typed([c]), textRows) && dirty
      ensures fresh(Bufs() - old(Bufs()))
    {
      hide Hold;
      SoundIs();
      var r := InsertAt(lines, text, cy, cx, c);
      HoldLengths(r, text[cy := text[cy][..cx] + [c] + text[cy][cx..]]);
      SetLines(r, text[cy := text[cy][..cx] + [c] + text[cy][cx..]]);
      cx := cx + 1;
    }

    /** Enter. */
    method SplitLine()
      requires Sound() && InText(At())
      modifies this`lines, this`text, this`dirty, this`cx, this`cy
      ensures Sound() && At() == Acted(old(At()), Enter, textRows)
      ensures dirty == (old(dirty) || Marks(old(At()), Enter))
      ensures fresh(Bufs() - old(Bufs()))
    {
      hide Hold;
      SoundIs();
      var r := SplitAt(lines, text, cy, cx);
      ghost var t := text[..cy] + [text[cy][..cx], text[cy][cx..]] + text[cy + 1..];
      HoldLengths(r, t);
      SetLines(r, t);
      cy := cy + 1;
      cx := 0;
    }

    method Erase()
      requires Sound() && InText(At())
      modifies this`lines, this`text, this`dirty, this`cx, this`cy, Bufs()
      ensures Sound() && At() == Acted(old(At()), Backspace, textRows)
      ensures dirty == (old(dirty) || Marks(old(At()), Backspace))
      ensures fresh(Bufs() - old(Bufs()))
    {
      hide Hold, Sound;
      SoundIs();
      if cx > 0 {
        EraseInLine();
      } else if cy > 0 {
        JoinBack();
      }
    }

    method EraseInLine()
      requires Sound() && InText(At()) && cx > 0
      modifies this`lines, this`text, this`dirty, this`cx, Bufs()
      ensures Sound() && At() == Acted(old(At()), Backspace, textRows) && dirty
      ensures fresh(Bufs() - old(Bufs()))
    {
      hide Hold;
      SoundIs();
      var l := lines[cy];
      HoldText(lines, text, cy, cx);
      var r := AppendAt(lines, text, cy, cx - 1, l.buf[cx..l.len]);
      SetLines(r, text[cy := text[cy][..cx - 1] + text[cy][cx..]]);
      cx := cx - 1;
    }

    /** The line is joined to the one before. */
    method JoinBack()
      requires Sound() && InText(At()) && cx == 0 && cy > 0
      modifies this`lines, this`text, this`dirty, this`cx, this`cy, Bufs()
      ensures Sound() && At() == Acted(old(At()), Backspace, textRows) && dirty
      ensures fresh(Bufs() - old(Bufs()))
    {
      hide Hold;
      SoundIs();
      var upto := lines[cy - 1].len;
      var r := JoinAt(lines, text, cy - 1);
      SetLines(r, JoinNext(text, cy - 1));
      cx := upto;
      cy := cy - 1;
    }

    method DeleteAhead()
      requires Sound() && InText(At())
      modifies this`lines, this`text, this`dirty, Bufs()
      ensures Sound() && At() == Acted(old(At()), Delete, textRows)
      ensures dirty == (old(dirty) || Marks(old(At()), Delete))
      ensures fresh(Bufs() - old(Bufs()))
    {
      hide Hold;
      SoundIs();
      var l := lines[cy];
      if cx < l.len {
        HoldText(lines, text, cy, cx + 1);
        var r := AppendAt(lines, text, cy, cx, l.buf[cx + 1..l.len]);
        SetLines(r, text[cy := text[cy][..cx] + text[cy][cx + 1..]]);
      } else if cy + 1 < |lines| {
        var r := JoinAt(lines, text, cy);
        SetLines(r, JoinNext(text, cy));
      }
    }

    method CutLine()
      requires Sound() && InText(At())
      modifies this`lines, this`text, this`dirty, Bufs()
      ensures Sound() && At() == Acted(old(At()), CutToEnd, textRows) && dirty
      ensures fresh(Bufs() - old(Bufs()))
    {
      hide Hold;
      SoundIs();
      var l := lines[cy];
      if cx < l.len {
        HoldCut(lines, text, cy, cx);
        SetLines(lines[cy := Slice(l.buf, cx)], text[cy := text[cy][..cx]]);
      } else if cy + 1 < |lines| {
        var r := JoinAt(lines, text, cy);
        SetLines(r, JoinNext(text, cy));
      }
      dirty := true;
    }

    method MarkSaved()
      requires Sound()
      modifies this`dirty, this`stored
      ensures Sound() && !dirty && stored == text
    {
      dirty := false;
      stored := text;
    }

    /** save: what is written, unless the file has no name; the mark goes when the write succeeds. */
    method Save(writes: bool) returns (written: Option<string>)
      requires Valid()
      modifies this`dirty, this`stored
      ensures Valid()
      ensures written == if filename == "untitled" then None else Some(Saved(text))
      ensures if written.Some? && writes then !dirty && stored == text else dirty == old(dirty) && stored == old(stored)
    {
      hide Hold;
      if filename == "untitled" {
        return None;
      }
      var content := Written(lines, text);
      SoundStays();
      if writes {
        MarkSaved();
      }
      return Some(content);
    }

    method TypeRunes(runes: string)
      requires Sound() && InText(At())
      modifies this`lines, this`text, this`dirty, this`cx
      ensures Sound() && At() == Acted(old(At()), Typed(runes), textRows)
      ensures dirty == (old(dirty) || Marks(old(At()), Typed(runes)))
      ensures fresh(Bufs() - old(Bufs()))
    {
      hide Sound, Acted;
      ghost var d := At();
      TypedNone(d, textRows);
      for k := 0 to |runes|
        invariant Sound() && At() == Acted(d, Typed(runes[..k]), textRows)
        invariant dirty == (old(dirty) || k > 0)
        invariant fresh(Bufs() - old(Bufs()))
      {
        TypedOneMore(d, runes[..k], runes[k], textRows);
        assert runes[..k + 1] == runes[..k] + [runes[k]];
        InsertRune(runes[k]);
      }
      assert runes[..|runes|] == runes;
    }

    /** The keys that only move the cursor, before it is brought back into the text. */
    method MoveCursor(key: Key)
      requires lines != [] && |lines| == |text| && InText(At()) && lines[cy].len == |text[cy]|
      requires LineToLine(key) || key.Left? || key.Right? || key.Home? || key.EndOfLine? || key.Other?
      modifies this`cx, this`cy
      ensures At() == Acted(old(At()), key, textRows)
    {
      match key {
        case Up => cy := cy - 1;
        case Down => cy := cy + 1;
        case Right => cx := cx + 1;
        case Left => cx := cx - 1;
        case Home => cx := 0;
        case EndOfLine => cx := lines[cy].len;
        case PageUp => cy := cy - textRows;
        case PageDown => cy := cy + textRows;
        case _ =>
      }
    }

    /** What the key does, before the cursor is brought back into the text. */
    method Act(key: Key)
      requires Sound() && InText(At())
      modifies this`lines, this`text, this`dirty, this`cx, this`cy, Bufs()
      ensures Sound() && At() == Acted(old(At()), key, textRows)
      ensures dirty == (old(dirty) || Marks(old(At()), key))
      ensures fresh(Bufs() - old(Bufs()))
    {
      hide Hold, Sound, Acted, BufsOf;
      match key {
        case Typed(runes) => TypeRunes(runes);
        case Enter => SplitLine();
        case Backspace => Erase();
        case Delete => DeleteAhead();
        case CutToEnd => CutLine();
        case _ =>
          SoundIs();
          MoveCursor(key);
          SoundStays();
      }
    }

    /** One turn of the key loop: the key does to the lines what Press says, after which again no two lines
        share an array, the cursor is in the text and in the window, and changed text is marked. */
    method PressKey(key: Key)
      requires Valid()
      modifies this`lines, this`text, this`dirty, this`cx, this`cy, this`topY, this`leftX, Bufs()
      ensures Valid() && At() == Press(old(At()), key, textRows)
      ensures dirty == (old(dirty) || Marks(old(At()), key))
      ensures fresh(Bufs() - old(Bufs()))
    {
      hide Hold, Sound, Acted, BufsOf;
      Act(key);
      Clamp();
    }
  }
}
