/** A terminal of fixed width and unbounded height, driven one character at a time.

    It knows what a line editor's output uses: text with deferred wrap, carriage return, line feed, and of ECMA-48
    the control functions CUU, CUD and CHA (sections 8.3.22, 8.3.19 and 8.3.9), ED (section 8.3.39) with parameters
    0 and 2, and CUP (section 8.3.21) without parameters. Other control sequences and control strings (an SGR
    colour, a window title) are read to their end and change nothing that is modelled here.
 */
module Terminal {

  /** The width of the terminal and of each character on it. */
  datatype Geometry = Geometry(cols: nat, width: char -> nat) {

    /** At least two columns, and the printable ASCII characters take one cell. */
    ghost predicate Valid() {
      cols >= 2 && width(' ') == 1 && forall c :: ' ' <= c <= '~' ==> width(c) == 1
    }

    /** A character that takes one or two cells. */
    predicate Printable(c: char) {
      c >= ' ' && c != DEL && 1 <= width(c) <= 2
    }

    ghost predicate AllPrintable(s: string) {
      forall i :: 0 <= i < |s| ==> Printable(s[i])
    }
  }

  const ESC: char := '\U{001b}'
  const DEL: char := '\U{007f}'
  const BEL: char := '\U{0007}'

  datatype Pos = Pos(row: nat, col: nat)

  predicate Before(p: Pos, q: Pos) {
    p.row < q.row || (p.row == q.row && p.col < q.col)
  }

  /** What one cell shows: a character, or the right half of the wide one before it. */
  datatype Glyph = Lead(c: char) | Trail

  /** The cells that show something; every other cell is blank. */
  type Grid = map<Pos, Glyph>

  datatype Phase = Ground | Escape | Csi(arg: nat) | Str | StrEscape

  /** pending is the deferred wrap: the last column is filled and the cursor stays on it. */
  datatype Term = Term(grid: Grid, row: nat, col: nat, pending: bool, phase: Phase)

  /** c drawn with its left half at p. A blank leaves its cell blank. */
  function Draw(g: Geometry, grid: Grid, p: Pos, c: char): Grid {
    if c == ' ' then grid - {p}
    else if g.width(c) >= 2 then grid[p := Lead(c)][Pos(p.row, p.col + 1) := Trail]
    else grid[p := Lead(c)]
  }

  /** Writing over half of a wide character blanks its other half. */
  function Cleared(grid: Grid, p: Pos, w: nat): Grid {
    var left := if p in grid && grid[p] == Trail && p.col > 0 then {Pos(p.row, p.col - 1)} else {};
    var after := Pos(p.row, p.col + w);
    var right := if after in grid && grid[after] == Trail then {after} else {};
    grid - left - right
  }

  /** The cells before p. ED blanks the others. */
  function UpTo(grid: Grid, p: Pos): Grid {
    map q | q in grid && Before(q, p) :: grid[q]
  }

  function Write(g: Geometry, t: Term, c: char): Term {
    var w := g.width(c);
    if w == 0 then t
    else
      var (row, col) := if t.pending || t.col + w > g.cols then (t.row + 1, 0) else (t.row, t.col);
      var grid := Draw(g, Cleared(t.grid, Pos(row, col), w), Pos(row, col), c);
      if col + w >= g.cols then Term(grid, row, if g.cols > 0 then g.cols - 1 else 0, true, Ground)
      else Term(grid, row, col + w, false, Ground)
  }

  /** A control sequence with its last parameter and its final character. */
  function Control(g: Geometry, t: Term, arg: nat, final: char): Term {
    var n := if arg == 0 then 1 else arg;
    var t := t.(phase := Ground);
    match final
    case 'A' => t.(row := if n <= t.row then t.row - n else 0, pending := false)
    case 'B' => t.(row := t.row + n, pending := false)
    case 'G' => t.(col := if n <= g.cols then n - 1 else if g.cols > 0 then g.cols - 1 else 0, pending := false)
    case 'H' => t.(row := 0, col := 0, pending := false)
    case 'J' => if arg == 0 then t.(grid := UpTo(t.grid, Pos(t.row, t.col)))
      else if arg == 2 then t.(grid := map[]) else t
    case _ => t
  }

  function Feed(g: Geometry, t: Term, c: char): Term {
    match t.phase
    case Ground =>
      if c == ESC then t.(phase := Escape)
      else if c == '\r' then t.(col := 0, pending := false)
      else if c == '\n' then t.(row := t.row + 1, pending := false)
      else if c < ' ' || c == DEL then t
      else Write(g, t, c)
    case Escape =>
      t.(phase := if c == '[' then Csi(0)
                  else if c in "]PX^_" then Str
                  else if ' ' <= c <= '/' then Escape
                  else Ground)
    case Csi(arg) =>
      if '0' <= c <= '9' then t.(phase := Csi(10 * arg + (c as int - '0' as int)))
      else if '@' <= c <= '~' then Control(g, t, arg, c)
      else if c == ESC then t.(phase := Escape)
      else t.(phase := Csi(0))
    case Str =>
      t.(phase := if c == BEL then Ground else if c == ESC then StrEscape else Str)
    case StrEscape =>
      t.(phase := if c == '\\' || c == BEL then Ground else if c == ESC then StrEscape else Str)
  }

  /** The terminal after every character of s, in order. */
  function Replay(g: Geometry, t: Term, s: string): Term
    decreases |s|
  {
    if s == "" then t else Replay(g, Feed(g, t, s[0]), s[1..])
  }

  lemma {:induction false} ReplayAppend(g: Geometry, t: Term, a: string, b: string)
    ensures Replay(g, t, a + b) == Replay(g, Replay(g, t, a), b)
    decreases |a|
  {
    if a == "" {
      assert a + b == b;
    } else {
      assert (a + b)[0] == a[0] && (a + b)[1..] == a[1..] + b;
      ReplayAppend(g, Feed(g, t, a[0]), a[1..], b);
    }
  }

  /** Whatever is on the screen, the text leaves the terminal ready for more. */
  ghost predicate Calm(g: Geometry, s: string) {
    forall t: Term :: t.phase == Ground ==> Replay(g, t, s).phase == Ground
  }

  lemma CalmAppend(g: Geometry, a: string, b: string)
    requires Calm(g, a) && Calm(g, b)
    ensures Calm(g, a + b)
  {
    forall t: Term | t.phase == Ground ensures Replay(g, t, a + b).phase == Ground {
      ReplayAppend(g, t, a, b);
      assert Replay(g, t, a).phase == Ground;
    }
  }

  /** Only ESC begins a sequence. */
  lemma CalmText(g: Geometry, s: string)
    requires ESC !in s
    ensures Calm(g, s)
  {
    forall t: Term | t.phase == Ground ensures Replay(g, t, s).phase == Ground {
      TextStaysGround(g, t, s);
    }
  }

  lemma {:induction false} TextStaysGround(g: Geometry, t: Term, s: string)
    requires t.phase == Ground && ESC !in s
    ensures Replay(g, t, s).phase == Ground
    decreases |s|
  {
    if s != "" {
      assert s[0] in s && ESC !in s[1..];
      TextStaysGround(g, Feed(g, t, s[0]), s[1..]);
    }
  }

  lemma CalmControl(g: Geometry, n: nat, final: char)
    requires '@' <= final <= '~'
    ensures Calm(g, [ESC, '['] + Itoa(n) + [final])
  {
    forall t: Term | t.phase == Ground ensures Replay(g, t, [ESC, '['] + Itoa(n) + [final]).phase == Ground {
      ReplayControl(g, t, n, final);
    }
  }

  /** Everything shown lies before p. */
  ghost predicate BlankFrom(grid: Grid, p: Pos) {
    forall q :: q in grid ==> Before(q, p)
  }

  /** The cursor is at the start of a row with nothing on it or below. */
  ghost predicate Fresh(t: Term) {
    t.phase == Ground && t.col == 0 && !t.pending && BlankFrom(t.grid, Pos(t.row, 0))
  }

  /** Decimal digits, as strconv.Itoa writes a number that is not negative. */
  function Itoa(n: nat): string {
    if n < 10 then [('0' as int + n) as char] else Itoa(n / 10) + [('0' as int + n % 10) as char]
  }

  /** The terminal reads back the number that was written. */
  lemma {:induction false} ReplayItoa(g: Geometry, t: Term, n: nat)
    requires t.phase == Csi(0)
    ensures Replay(g, t, Itoa(n)) == t.(phase := Csi(n))
  {
    if n < 10 {
      assert Itoa(n)[1..] == "";
    } else {
      var last := [('0' as int + n % 10) as char];
      ReplayItoa(g, t, n / 10);
      ReplayAppend(g, t, Itoa(n / 10), last);
      assert last[1..] == "";
      assert 10 * (n / 10) + n % 10 == n;
    }
  }

  /** ESC [ n final does what that control function says. */
  lemma ReplayControl(g: Geometry, t: Term, n: nat, final: char)
    requires t.phase == Ground && '@' <= final <= '~'
    ensures Replay(g, t, [ESC, '['] + Itoa(n) + [final]) == Control(g, t.(phase := Csi(n)), n, final)
  {
    ReplayAppend(g, t, [ESC, '['] + Itoa(n), [final]);
    ReplayAppend(g, t, [ESC, '['], Itoa(n));
    assert [ESC, '['][1..] == ['['] && ['['][1..] == "";
    assert Replay(g, t, [ESC, '[']) == t.(phase := Csi(0)) by {
      assert Replay(g, Feed(g, t, ESC), ['[']) == Replay(g, Feed(g, Feed(g, t, ESC), '['), "");
    }
    ReplayItoa(g, t.(phase := Csi(0)), n);
    assert [final][1..] == "";
  }

  /** What the hosts write for Ctrl+L leaves a fresh row, whatever was on the screen. */
  lemma ClearTextIsFresh(g: Geometry, t: Term)
    requires t.phase == Ground
    ensures Fresh(Replay(g, t, [ESC, '[', '2', 'J', ESC, '[', 'H']))
  {
    var s := [ESC, '[', '2', 'J', ESC, '[', 'H'];
    var t1 := Feed(g, t, ESC);
    var t2 := Feed(g, t1, '[');
    var t3 := Feed(g, t2, '2');
    var t4 := Feed(g, t3, 'J');
    var t5 := Feed(g, t4, ESC);
    var t6 := Feed(g, t5, '[');
    assert s[1..][1..][1..][1..][1..][1..] == ['H'];
    assert s[1..][1..][1..][1..][1..] == ['[', 'H'];
    assert s[1..][1..][1..][1..] == [ESC, '[', 'H'];
    assert s[1..][1..][1..] == ['J', ESC, '[', 'H'];
    assert s[1..][1..] == ['2', 'J', ESC, '[', 'H'];
    assert Replay(g, t6, ['H']) == Replay(g, Feed(g, t6, 'H'), "");
    assert Replay(g, t4, [ESC, '[', 'H']) == Replay(g, t6, ['H']);
    assert Replay(g, t2, ['2', 'J', ESC, '[', 'H']) == Replay(g, t4, [ESC, '[', 'H']);
    assert Replay(g, t, s) == Replay(g, t2, ['2', 'J', ESC, '[', 'H']);
  }
}
