/** Range addresses of sed (shell/sed/sed.go, selected): the state a range keeps from line to line, and the
    intervals of lines it selects. */
module SedRange {

  /** Addresses. Regular expressions are kept abstract: what each matches is part of the line. */
  datatype Address = NoAddress | Line(line: nat) | Last | Regex | Step(line: nat, step: nat) | Plus(count: nat) | Zero

  /** What a range command sees of one line: its number, whether it is the input's last, and whether the
      command's first and second address match it when they are regular expressions. */
  datatype Seen = Seen(ln: nat, last: bool, re1: bool, re2: bool)

  datatype Flag = Flag(active: bool, endLine: nat)

  predicate MatchOne(a: Address, s: Seen, re: bool) {
    match a
    case Line(n) => s.ln == n
    case Last => s.last
    case Regex => re
    case Step(first, step) => if step == 0 then s.ln == first else s.ln >= first && (s.ln - first) % step == 0
    case _ => false
  }

  /** n is line n, $ the last, and first~step every step-th line from first on, or that line only. */
  lemma MatchOneMeans(a: Address, s: Seen, re: bool)
    ensures a.Line? ==> (MatchOne(a, s, re) <==> s.ln == a.line)
    ensures a.Last? ==> (MatchOne(a, s, re) <==> s.last)
    ensures a.Regex? ==> (MatchOne(a, s, re) <==> re)
    ensures a.Step? ==>
      (MatchOne(a, s, re) <==> exists k: nat :: s.ln == a.line + k * a.step && (a.step == 0 ==> k == 0))
    ensures a.Zero? || a.Plus? || a.NoAddress? ==> !MatchOne(a, s, re)
  {
    if a.Step? && a.step > 0 {
      if MatchOne(a, s, re) {
        assert s.ln == a.line + ((s.ln - a.line) / a.step) * a.step;
      } else if k: nat :| s.ln == a.line + k * a.step {
        ModuloIs(k * a.step, k, 0, a.step);
      }
    } else if a.Step? {
      assert a.line == a.line + 0 * a.step;
    }
  }

  /** The addresses parse lets through: 0 only before a regular expression (shell/sed/parse.go). */
  predicate Accepted(a1: Address, a2: Address) {
    a1 != NoAddress && !a1.Plus? && a2 != NoAddress && !a2.Zero? && (a1.Zero? ==> a2.Regex?)
  }

  /** A range's state before the first line: 0,/re/ is already inside. */
  function Initial(a1: Address): Flag {
    Flag(a1.Zero?, 0)
  }

  /** An active range up to a multiple has a step to divide by. */
  predicate FlagValid(a2: Address, f: Flag) {
    f.active && a2.Step? ==> a2.step > 0
  }

  /** Is the line the second address of a range that is active before it? */
  predicate Ends(a2: Address, f: Flag, s: Seen)
    requires f.active && FlagValid(a2, f)
  {
    match a2
    case Line(n) => s.ln >= n
    case Plus(_) => s.ln >= f.endLine
    case Step(_, step) => s.ln % step == 0
    case Last => s.last
    case Regex => s.re2
    case _ => false
  }

  /** Does the range end on the line it starts at? A regular expression is not looked for there. */
  predicate EndsAtStart(a2: Address, s: Seen) {
    match a2
    case Line(n) => n <= s.ln
    case Plus(n) => n == 0
    case Step(_, step) => step == 0 || s.ln % step == 0
    case Last => s.last
    case _ => false
  }

  /** selected for a command with two addresses: whether the line is in the range, and the range's state. */
  method Selected(a1: Address, a2: Address, f: Flag, s: Seen) returns (sel: bool, f': Flag)
    requires Accepted(a1, a2) && FlagValid(a2, f)
    ensures FlagValid(a2, f')
    ensures (sel, f') == Select(a1, a2, f, s)
  {
    var active, endLine := f.active, f.endLine;
    if !active {
      if !MatchOne(a1, s, s.re1) {
        return false, f;
      }
      active := true;
      match a2 {
        case Line(n) =>
          if n <= s.ln { active := false; }
        case Plus(n) =>
          endLine := s.ln + n;
          if n == 0 { active := false; }
        case Step(_, step) =>
          if step == 0 || s.ln % step == 0 { active := false; }
        case Last =>
          if s.last { active := false; }
        case _ =>
      }
      return true, Flag(active, endLine);
    }
    match a2 {
      case Line(n) =>
        if s.ln >= n { active := false; }
      case Plus(_) =>
        if s.ln >= endLine { active := false; }
      case Step(_, step) =>
        if s.ln % step == 0 { active := false; }
      case Last =>
        if s.last { active := false; }
      case _ =>
        if s.re2 { active := false; }
    }
    return true, Flag(active, endLine);
  }

  function Select(a1: Address, a2: Address, f: Flag, s: Seen): (r: (bool, Flag))
    requires FlagValid(a2, f)
    ensures FlagValid(a2, r.1)
  {
    if f.active then (true, f.(active := !Ends(a2, f, s)))
    else if !MatchOne(a1, s, s.re1) then (false, f)
    else (true, Flag(!EndsAtStart(a2, s), if a2.Plus? then s.ln + a2.count else f.endLine))
  }

  // ---- the machine over all the lines ----

  /** Which of the lines a range that starts in state f selects. */
  function Selections(a1: Address, a2: Address, f: Flag, lines: seq<Seen>): (sel: seq<bool>)
    requires FlagValid(a2, f)
    ensures |sel| == |lines|
    decreases |lines|
  {
    if lines == [] then []
    else
      var (b, f') := Select(a1, a2, f, lines[0]);
      [b] + Selections(a1, a2, f', lines[1..])
  }

  function After(a1: Address, a2: Address, f: Flag, lines: seq<Seen>): (f': Flag)
    requires FlagValid(a2, f)
    ensures FlagValid(a2, f')
    decreases |lines|
  {
    if lines == [] then f else After(a1, a2, Select(a1, a2, f, lines[0]).1, lines[1..])
  }

  // ---- the intervals it declares ----

  /** The first line at or after i that is the second address of a range whose end line is endLine, or the
      number of lines. */
  function EndAt(a2: Address, endLine: nat, lines: seq<Seen>, i: nat): (j: nat)
    requires i <= |lines| && FlagValid(a2, Flag(true, endLine))
    ensures i <= j <= |lines|
    ensures j < |lines| ==> Ends(a2, Flag(true, endLine), lines[j])
    ensures forall k :: i <= k < j ==> !Ends(a2, Flag(true, endLine), lines[k])
    decreases |lines| - i
  {
    if i == |lines| || Ends(a2, Flag(true, endLine), lines[i]) then i else EndAt(a2, endLine, lines, i + 1)
  }

  /** The last line of the interval that starts at line k; the number of lines when it never ends. */
  function LastOf(a2: Address, lines: seq<Seen>, k: nat): (j: nat)
    requires k < |lines|
    ensures k <= j <= |lines|
  {
    if EndsAtStart(a2, lines[k]) then k
    else EndAt(a2, if a2.Plus? then lines[k].ln + a2.count else 0, lines, k + 1)
  }

  /** The first line at or after i that the first address matches, or the number of lines. */
  function StartAt(a1: Address, lines: seq<Seen>, i: nat): (k: nat)
    requires i <= |lines|
    ensures i <= k <= |lines|
    ensures k < |lines| ==> MatchOne(a1, lines[k], lines[k].re1)
    ensures forall m :: i <= m < k ==> !MatchOne(a1, lines[m], lines[m].re1)
    decreases |lines| - i
  {
    if i == |lines| || MatchOne(a1, lines[i], lines[i].re1) then i else StartAt(a1, lines, i + 1)
  }

  datatype Interval = Interval(first: nat, last: nat)

  /** The intervals from line i on, outside any range there: each starts at the first line the first
      address matches after the one before has ended. */
  function Intervals(a1: Address, a2: Address, lines: seq<Seen>, i: nat): seq<Interval>
    requires i <= |lines|
    decreases |lines| - i
  {
    var k := StartAt(a1, lines, i);
    if k == |lines| then []
    else
      var j := LastOf(a2, lines, k);
      [Interval(k, j)] + if j < |lines| then Intervals(a1, a2, lines, j + 1) else []
  }

  /** All the intervals of a command: 0,/re/ has one that is open before the first line. */
  function Declared(a1: Address, a2: Address, lines: seq<Seen>): seq<Interval>
    requires Accepted(a1, a2)
  {
    if a1.Zero? then [Interval(0, EndAt(a2, 0, lines, 0))] else Intervals(a1, a2, lines, 0)
  }

  /** Is line m in one of the intervals? */
  predicate Covers(is_: seq<Interval>, m: nat) {
    is_ != [] && (is_[0].first <= m <= is_[0].last || Covers(is_[1..], m))
  }

  lemma CoversCons(x: Interval, rest: seq<Interval>, m: nat)
    ensures Covers([x] + rest, m) <==> x.first <= m <= x.last || Covers(rest, m)
  {
    assert ([x] + rest)[1..] == rest;
  }

  function Later(a1: Address, a2: Address, lines: seq<Seen>, j: nat): seq<Interval> {
    if j < |lines| then Intervals(a1, a2, lines, j + 1) else []
  }

  lemma IntervalsAre(a1: Address, a2: Address, lines: seq<Seen>, i: nat)
    requires i <= |lines|
    ensures var k := StartAt(a1, lines, i);
      Intervals(a1, a2, lines, i) ==
      if k == |lines| then [] else [Interval(k, LastOf(a2, lines, k))] + Later(a1, a2, lines, LastOf(a2, lines, k))
  {
    hide StartAt, LastOf, MatchOne, Ends, EndsAtStart;
  }

  /** Intervals from line i on cover no earlier line. */
  lemma {:induction false} NoneEarlier(a1: Address, a2: Address, lines: seq<Seen>, i: nat, m: nat)
    requires m < i <= |lines|
    ensures !Covers(Intervals(a1, a2, lines, i), m)
    decreases |lines| - i
  {
    hide Covers, Intervals, StartAt, LastOf, MatchOne, Ends, EndsAtStart;
    CoversNothing(m);
    IntervalsAre(a1, a2, lines, i);
    var k := StartAt(a1, lines, i);
    if k < |lines| {
      var j := LastOf(a2, lines, k);
      CoversCons(Interval(k, j), Later(a1, a2, lines, j), m);
      if j < |lines| {
        NoneEarlier(a1, a2, lines, j + 1, m);
      }
    }
  }

  /** A line is covered by the first interval or by the later ones, and by none before the first. */
  lemma CoversSplit(a1: Address, a2: Address, lines: seq<Seen>, i: nat, m: nat)
    requires i <= m < |lines|
    ensures var k := StartAt(a1, lines, i);
      Covers(Intervals(a1, a2, lines, i), m) <==>
      k <= m && (m <= LastOf(a2, lines, k) || Covers(Intervals(a1, a2, lines, LastOf(a2, lines, k) + 1), m))
  {
    hide Covers, Intervals, StartAt, LastOf, MatchOne, Ends, EndsAtStart;
    IntervalsAre(a1, a2, lines, i);
    CoversNothing(m);
    var k := StartAt(a1, lines, i);
    if k < |lines| {
      var j := LastOf(a2, lines, k);
      CoversCons(Interval(k, j), Later(a1, a2, lines, j), m);
      if j < |lines| && m < k {
        NoneEarlier(a1, a2, lines, j + 1, m);
      }
    }
  }

  lemma CoversNothing(m: nat)
    ensures !Covers([], m)
  {
  }

  /** Where the range that is open in state f ends, or the line before i when none is. */
  function OpenEnd(a2: Address, f: Flag, lines: seq<Seen>, i: nat): (e: int)
    requires i <= |lines| && FlagValid(a2, f)
    ensures i - 1 <= e <= |lines|
  {
    if f.active then EndAt(a2, f.endLine, lines, i) else i - 1
  }

  /** Is line m in a range that is open up to line e, or in an interval after it? */
  ghost predicate InRange(a1: Address, a2: Address, lines: seq<Seen>, e: int, m: nat)
    requires -1 <= e <= |lines|
  {
    m <= e || (e < |lines| && Covers(Intervals(a1, a2, lines, e + 1), m))
  }

  /** One line on, the range machine's state describes the same intervals. */
  lemma InRangeStep(a1: Address, a2: Address, f: Flag, lines: seq<Seen>, i: nat, m: nat)
    requires i <= m < |lines| && FlagValid(a2, f)
    ensures var (b, f') := Select(a1, a2, f, lines[i]);
      InRange(a1, a2, lines, OpenEnd(a2, f, lines, i), m) <==>
      if m == i then b else InRange(a1, a2, lines, OpenEnd(a2, f', lines, i + 1), m)
  {
    hide Covers, Intervals;
    var (b, f') := Select(a1, a2, f, lines[i]);
    if f.active {
      OpenEndStays(a1, a2, f, lines, i);
    } else if b {
      OpenedEnd(a1, a2, f, lines, i);
      StartsHere(a1, a2, lines, i, m);
    } else {
      StartsLater(a1, a2, lines, i, m);
    }
  }

  lemma OpenEndStays(a1: Address, a2: Address, f: Flag, lines: seq<Seen>, i: nat)
    requires i < |lines| && FlagValid(a2, f) && f.active
    ensures OpenEnd(a2, f, lines, i) >= i
    ensures OpenEnd(a2, Select(a1, a2, f, lines[i]).1, lines, i + 1) == OpenEnd(a2, f, lines, i)
  {
  }

  lemma StartsHere(a1: Address, a2: Address, lines: seq<Seen>, i: nat, m: nat)
    requires i <= m < |lines| && MatchOne(a1, lines[i], lines[i].re1)
    ensures InRange(a1, a2, lines, i - 1, m) <==> InRange(a1, a2, lines, LastOf(a2, lines, i), m)
  {
    hide Covers, Intervals;
    CoversSplit(a1, a2, lines, i, m);
  }

  lemma StartsLater(a1: Address, a2: Address, lines: seq<Seen>, i: nat, m: nat)
    requires i <= m < |lines| && !MatchOne(a1, lines[i], lines[i].re1)
    ensures m == i ==> !InRange(a1, a2, lines, i - 1, m)
    ensures m > i ==> (InRange(a1, a2, lines, i - 1, m) <==> InRange(a1, a2, lines, i, m))
  {
    hide Covers, Intervals, MatchOne, Ends, EndsAtStart, LastOf;
    IntervalsAre(a1, a2, lines, i);
    IntervalsAre(a1, a2, lines, i + 1);
    assert StartAt(a1, lines, i) == StartAt(a1, lines, i + 1) > i;
    if m == i {
      CoversSplit(a1, a2, lines, i, m);
    }
  }

  /** A range that opens at line i ends where its interval does. */
  lemma OpenedEnd(a1: Address, a2: Address, f: Flag, lines: seq<Seen>, i: nat)
    requires i < |lines| && FlagValid(a2, f) && !f.active && Select(a1, a2, f, lines[i]).0
    ensures OpenEnd(a2, Select(a1, a2, f, lines[i]).1, lines, i + 1) == LastOf(a2, lines, i)
  {
    var f' := Select(a1, a2, f, lines[i]).1;
    if f'.active && !a2.Plus? {
      EndLineUnused(a2, f'.endLine, 0, lines, i + 1);
    }
  }

  /** The state machine, started at line i outside a range or inside one that began earlier, selects a line
      exactly when the open range or a later interval covers it. */
  lemma {:induction false} SelectsFrom(a1: Address, a2: Address, f: Flag, lines: seq<Seen>, i: nat, m: nat)
    requires i <= m < |lines| && FlagValid(a2, f)
    ensures Selections(a1, a2, f, lines[i..])[m - i] <==> InRange(a1, a2, lines, OpenEnd(a2, f, lines, i), m)
    decreases |lines| - i
  {
    hide Select, InRange;
    var (b, f') := Select(a1, a2, f, lines[i]);
    assert lines[i..][0] == lines[i] && lines[i..][1..] == lines[i + 1..];
    InRangeStep(a1, a2, f, lines, i, m);
    if i < m {
      SelectsFrom(a1, a2, f', lines, i + 1, m);
    }
  }

  lemma {:induction false} EndLineUnused(a2: Address, e: nat, e': nat, lines: seq<Seen>, i: nat)
    requires i <= |lines| && !a2.Plus? && FlagValid(a2, Flag(true, e))
    ensures EndAt(a2, e, lines, i) == EndAt(a2, e', lines, i)
    decreases |lines| - i
  {
    if i < |lines| {
      EndLineUnused(a2, e, e', lines, i + 1);
    }
  }

  /** Over any lines, with numbering that may start again (a later Run), a range command selects exactly the
      lines of its declared intervals. */
  lemma SelectsDeclared(a1: Address, a2: Address, lines: seq<Seen>, m: nat)
    requires Accepted(a1, a2) && m < |lines|
    ensures Selections(a1, a2, Initial(a1), lines)[m] <==> Covers(Declared(a1, a2, lines), m)
  {
    SelectsFrom(a1, a2, Initial(a1), lines, 0, m);
    assert lines[0..] == lines;
    if a1.Zero? {
      hide Intervals, EndAt;
      var e := EndAt(a2, 0, lines, 0);
      CoversOne(Interval(0, e), m);
      if e < |lines| {
        ZeroStartsNone(a2, lines, e + 1, m);
      }
    } else {
      CoversOpen(a1, a2, lines, m);
    }
  }

  lemma CoversOne(x: Interval, m: nat)
    ensures Covers([x], m) <==> x.first <= m <= x.last
  {
    assert [x][1..] == [];
  }

  lemma ZeroStartsNone(a2: Address, lines: seq<Seen>, i: nat, m: nat)
    requires i <= |lines|
    ensures !Covers(Intervals(Zero, a2, lines, i), m)
  {
    assert StartAt(Zero, lines, i) == |lines|;
  }

  lemma CoversOpen(a1: Address, a2: Address, lines: seq<Seen>, m: nat)
    ensures InRange(a1, a2, lines, -1, m) <==> Covers(Intervals(a1, a2, lines, 0), m)
  {
  }

  /** A range left open by one Run goes on in the next. */
  lemma {:induction false} RunsGoOn(a1: Address, a2: Address, f: Flag, x: seq<Seen>, y: seq<Seen>)
    requires FlagValid(a2, f)
    ensures Selections(a1, a2, f, x + y) ==
      Selections(a1, a2, f, x) + Selections(a1, a2, After(a1, a2, f, x), y)
    ensures After(a1, a2, f, x + y) == After(a1, a2, After(a1, a2, f, x), y)
    decreases |x|
  {
    if x == [] {
      assert x + y == y;
    } else {
      assert (x + y)[0] == x[0] && (x + y)[1..] == x[1..] + y;
      RunsGoOn(a1, a2, Select(a1, a2, f, x[0]).1, x[1..], y);
    }
  }

  // ---- where an interval ends in one Run, whose lines are numbered from 1 ----

  ghost predicate Numbered(lines: seq<Seen>) {
    forall i :: 0 <= i < |lines| ==> lines[i].ln == i + 1 && (lines[i].last <==> i == |lines| - 1)
  }

  /** The least multiple of step that is at least n. */
  function RoundUp(n: nat, step: nat): nat
    requires step > 0
  {
    if n % step == 0 then n else n - n % step + step
  }

  function Capped(n: nat, most: nat): nat {
    if n <= most then n else most
  }

  /** The number of an interval's last line, from its first line's number, for each second address that is
      not a regular expression; the input's end cuts it short. */
  function DeclaredEnd(a2: Address, first: nat, total: nat): nat
    requires a2.Line? || a2.Plus? || a2.Step? || a2.Last?
  {
    match a2
    case Line(n) => Capped(if n <= first then first else n, total)
    case Plus(n) => Capped(first + n, total)
    case Step(_, step) => if step == 0 then first else Capped(RoundUp(first, step), total)
    case Last => total
  }

  lemma {:induction false} TimesGrows(a: int, b: int, step: nat)
    requires a < b
    ensures a * step + step <= b * step
    decreases b - a
  {
    if b == a + 1 {
      assert (a + 1) * step == a * step + step;
    } else {
      TimesGrows(a, b - 1, step);
      assert b * step == (b - 1) * step + step;
    }
  }

  lemma ModuloIs(x: nat, q: nat, r: nat, step: nat)
    requires r < step && x == q * step + r
    ensures x % step == r
  {
    var q' := x / step;
    if q' < q {
      TimesGrows(q', q, step);
    } else if q < q' {
      TimesGrows(q, q', step);
    }
  }

  lemma NoMultipleBetween(n: nat, m: nat, step: nat)
    requires step > 0 && n % step != 0 && n < m < RoundUp(n, step)
    ensures m % step != 0
  {
    var q := n / step;
    ModuloIs(m, q, m - q * step, step);
  }

  lemma RoundUpIsMultiple(n: nat, step: nat)
    requires step > 0
    ensures RoundUp(n, step) % step == 0 && n <= RoundUp(n, step) < n + step
  {
    if n % step != 0 {
      ModuloIs(RoundUp(n, step), n / step + 1, 0, step);
    }
  }

  /** N ends at line N or at once, +N after N more lines, ~N at the next multiple, $ at the last line; a
      range still open at the end of the input goes up to it. */
  lemma IntervalEnds(a2: Address, lines: seq<Seen>, k: nat)
    requires Numbered(lines) && k < |lines| && (a2.Line? || a2.Plus? || a2.Step? || a2.Last?)
    ensures Capped(LastOf(a2, lines, k) + 1, |lines|) == DeclaredEnd(a2, k + 1, |lines|)
  {
    var e := if a2.Plus? then lines[k].ln + a2.count else 0;
    if !EndsAtStart(a2, lines[k]) {
      var j := EndAt(a2, e, lines, k + 1);
      var end := DeclaredEnd(a2, k + 1, |lines|);
      if a2.Step? {
        RoundUpIsMultiple(k + 1, a2.step);
        if k + 1 < j + 1 < RoundUp(k + 1, a2.step) {
          NoMultipleBetween(k + 1, j + 1, a2.step);
        }
      }
      if end - 1 < j {
        assert !Ends(a2, Flag(true, e), lines[end - 1]) || end - 1 < k + 1;
      }
    }
  }

  /** An interval to a regular expression ends at the first line after its first that matches it, or never; and the one
      of 0,/re/ at the first line that does, which may be the first of all. */
  lemma RegexIntervalEnds(lines: seq<Seen>, k: nat)
    requires k < |lines|
    ensures
      var j := LastOf(Regex, lines, k);
      k < j && (j < |lines| ==> lines[j].re2) && forall m :: k < m < j ==> !lines[m].re2
    ensures
      var one := Declared(Zero, Regex, lines);
      && |one| == 1 && one[0].first == 0
      && (one[0].last < |lines| ==> lines[one[0].last].re2)
      && (one[0].last <= |lines|) && forall m :: 0 <= m < one[0].last ==> !lines[m].re2
  {
  }

  /** An open range to a regular expression selects every line up to the first that matches it, and is closed on the
      lines after that. */
  lemma {:induction false} RegexEnds(a1: Address, f: Flag, lines: seq<Seen>, j: nat, m: nat)
    requires f.active && j < |lines| && lines[j].re2 && (forall n :: 0 <= n < j ==> !lines[n].re2) && m < |lines|
    ensures
      Selections(a1, Regex, f, lines)[m] ==
      if m <= j then true else Selections(a1, Regex, f.(active := false), lines[j + 1..])[m - j - 1]
    decreases |lines|
  {
    if j == 0 {
      assert Select(a1, Regex, f, lines[0]) == (true, f.(active := false));
    } else {
      assert Select(a1, Regex, f, lines[0]) == (true, f);
      if m > 0 {
        RegexEnds(a1, f, lines[1..], j - 1, m - 1);
        assert lines[1..][j..] == lines[j + 1..];
      }
    }
  }
}
