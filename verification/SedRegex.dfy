/** sed's regular expressions turned into RE2 syntax (shell/sed/regex.go).

    Both syntaxes are read as sequences of tokens: POSIX basic and extended regular expressions with the GNU
    escapes on one side (sections 9.3 and 9.4 of the POSIX Base Definitions), RE2 on the other. An interval is
    read as its opening, the characters of its bounds and its closing. Characters are ASCII. */
module SedRegex {
  import opened Wrappers
  import Terminal

  datatype Item = Ch(c: char) | Named(name: string)

  datatype Tok =
    | Lit(c: char) | Any | LineStart | LineEnd | Open | Close | Alt
    | Repeat(op: char) | IntervalOpen | IntervalClose
    | Bracket(negated: bool, items: seq<Item>)
    | Class(c: char) | Boundary | TextStart | TextEnd
    | Lazy | Nested | Oversized

  datatype Error = TrailingBackslash | BackReference | Unterminated | Collating

  /** Where a reader is: just after a repetition, inside an interval. */
  datatype Place = Place(afterRep: bool, inInterval: bool)

  predicate Special(c: char) {
    c == '\\' || c == '.' || c == '+' || c == '*' || c == '?' || c == '(' || c == ')' || c == '|' ||
    c == '[' || c == ']' || c == '{' || c == '}' || c == '^' || c == '$'
  }

  /** Escapes that mean the same in both syntaxes: character classes, \B and control characters. */
  predicate IsClass(c: char) {
    c == 'w' || c == 'W' || c == 's' || c == 'S' || c == 'B' || c == 'a' || c == 'f' || c == 'v' || c == 'r'
  }

  /** The operators that are escaped in a basic expression and bare in an extended one. */
  predicate IsOperator(c: char) {
    c == '(' || c == ')' || c == '{' || c == '}' || c == '+' || c == '?' || c == '|'
  }

  /** What a backslash in a bracket goes together with: \n, \t and \\. */
  predicate KeepsMeaning(c: char) {
    c == 'n' || c == 't' || c == '\\'
  }

  function QuoteMeta(c: char): string {
    if Special(c) then ['\\', c] else [c]
  }

  function Plain(p: Place): Place {
    p.(afterRep := false)
  }

  // ---- the bounds of an interval ----

  predicate Digit(c: char) {
    '0' <= c <= '9'
  }

  predicate BoundChar(c: char) {
    Digit(c) || c == ','
  }

  /** How many digits a text begins with. */
  function DigitsAt(s: string): (n: nat)
    ensures n <= |s|
  {
    if s == "" || !Digit(s[0]) then 0 else 1 + DigitsAt(s[1..])
  }

  function Value(digits: string, sofar: nat): nat {
    if digits == "" || !Digit(digits[0]) then sofar else Value(digits[1..], 10 * sofar + (digits[0] - '0') as nat)
  }

  /** A number as RE2 takes one: digits, and no 0 in front of others. */
  predicate Number(s: string) {
    s != "" && DigitsAt(s) == |s| && (|s| > 1 ==> s[0] != '0')
  }

  /** What RE2 makes of the text between a { and a }: no bounds, bounds it refuses, or bounds. */
  datatype Bounds = NoBounds | TooLarge | InRange

  /** RE2 takes m, or m and a comma, or m,n: numbers up to 1000, the second not below the first. */
  function Judge(text: string): Bounds {
    var k := DigitsAt(text);
    var low := text[..k];
    if !Number(low) then NoBounds
    else if k == |text| || text[k..] == "," then (if Value(low, 0) <= 1000 then InRange else TooLarge)
    else if text[k] != ',' || !Number(text[k + 1..]) then NoBounds
    else if Value(low, 0) <= Value(text[k + 1..], 0) <= 1000 then InRange
    else TooLarge
  }

  function JudgeSome(text: Option<string>): Bounds {
    match text case None => NoBounds case Some(t) => Judge(t)
  }

  function Longer(c: char, text: Option<string>): Option<string> {
    match text case None => None case Some(t) => Some([c] + t)
  }

  /** The bounds that a } ends, in a text. */
  function BoundsIn(s: string): Option<string> {
    if s == "" then None
    else if s[0] == '}' then Some("")
    else if BoundChar(s[0]) then Longer(s[0], BoundsIn(s[1..]))
    else None
  }

  /** The bounds that an interval's closing ends, in what was read. */
  function BoundsOf(toks: seq<Tok>): Option<string> {
    if toks == [] then None
    else if toks[0] == IntervalClose then Some("")
    else if toks[0].Lit? && BoundChar(toks[0].c) then Longer(toks[0].c, BoundsOf(toks[1..]))
    else None
  }

  // ---- reading RE2 ----

  function EscapedRe2(d: char): Tok {
    if d == 'n' then Lit('\n')
    else if d == 't' then Lit('\t')
    else if d == 'A' then TextStart
    else if d == 'z' then TextEnd
    else if d == 'b' then Boundary
    else if IsClass(d) then Class(d)
    else Lit(d)
  }

  function Re2Brace(b: Bounds, p: Place): (Tok, Place) {
    if b == NoBounds then (Lit('{'), Plain(p))
    else (if b == TooLarge then Oversized else if p.afterRep then Nested else IntervalOpen, Place(false, true))
  }

  /** One operator or character outside brackets, and the place after it. A repetition straight after
      another is not one of its own in RE2: ? makes the other lazy, the rest are refused. A { that no bounds
      and no } follow is that character. */
  function Re2Char(c: char, rest: string, p: Place): (Tok, Place) {
    if c == '*' || c == '+' || c == '?' then
      (if !p.afterRep then Repeat(c) else if c == '?' then Lazy else Nested, p.(afterRep := true))
    else if c == '{' then Re2Brace(JudgeSome(BoundsIn(rest)), p)
    else if c == '}' then (if p.inInterval then (IntervalClose, Place(true, false)) else (Lit('}'), Plain(p)))
    else if c == '.' then (Any, Plain(p))
    else if c == '^' then (LineStart, Plain(p))
    else if c == '$' then (LineEnd, Plain(p))
    else if c == '(' then (Open, Plain(p))
    else if c == ')' then (Close, Plain(p))
    else if c == '|' then (Alt, Plain(p))
    else (Lit(c), Plain(p))
  }

  // ---- intervals, by their numbers ----

  lemma {:induction false} ItoaDigits(n: nat, rest: string)
    requires rest == "" || !Digit(rest[0])
    ensures
      var s := Terminal.Itoa(n);
      && s != "" && (forall i :: 0 <= i < |s| ==> Digit(s[i])) && (|s| > 1 ==> s[0] != '0')
      && DigitsAt(s + rest) == |s| && DigitsAt(s) == |s| && Number(s)
    decreases n
  {
    var s := Terminal.Itoa(n);
    ItoaIsNumber(n);
    AllDigits(s, rest);
    AllDigits(s, "");
    assert s + "" == s;
  }

  lemma {:induction false} ItoaIsNumber(n: nat)
    ensures
      var s := Terminal.Itoa(n);
      && s != "" && (forall i :: 0 <= i < |s| ==> Digit(s[i])) && (n > 0 ==> s[0] != '0') && (n == 0 ==> s == "0")
      && Value(s, 0) == n
    decreases n
  {
    if n >= 10 {
      ItoaIsNumber(n / 10);
      ValueOn(Terminal.Itoa(n / 10), [('0' as int + n % 10) as char], 0);
    }
  }

  lemma {:induction false} ValueOn(a: string, b: string, sofar: nat)
    requires forall i :: 0 <= i < |a| ==> Digit(a[i])
    ensures Value(a + b, sofar) == Value(b, Value(a, sofar))
    decreases |a|
  {
    if a == "" {
      assert a + b == b;
    } else {
      assert (a + b)[0] == a[0] && (a + b)[1..] == a[1..] + b;
      ValueOn(a[1..], b, 10 * sofar + (a[0] - '0') as nat);
    }
  }

  lemma {:induction false} AllDigits(s: string, rest: string)
    requires (forall i :: 0 <= i < |s| ==> Digit(s[i])) && (rest == "" || !Digit(rest[0]))
    ensures DigitsAt(s + rest) == |s|
    decreases |s|
  {
    if s == "" {
      assert s + rest == rest;
    } else {
      assert (s + rest)[0] == s[0] && (s + rest)[1..] == s[1..] + rest;
      AllDigits(s[1..], rest);
    }
  }

  /** An interval of numbers is one for RE2 when they are at most 1000 and in order, and too large otherwise. */
  lemma IntervalsMean(m: nat, n: nat)
    ensures
      var a, b := Terminal.Itoa(m), Terminal.Itoa(n);
      && Judge(a) == (if m <= 1000 then InRange else TooLarge)
      && Judge(a + ",") == (if m <= 1000 then InRange else TooLarge)
      && Judge(a + "," + b) == (if m <= n <= 1000 then InRange else TooLarge)
  {
    hide DigitsAt, Value, Judge, Terminal.Itoa, Number;
    var a, b := Terminal.Itoa(m), Terminal.Itoa(n);
    ItoaIsNumber(m);
    ItoaIsNumber(n);
    ItoaDigits(m, "");
    ItoaDigits(m, ",");
    ItoaDigits(m, "," + b);
    ItoaDigits(n, "");
    JudgeOne(a);
    JudgeOpen(a);
    JudgeTwo(a, b);
  }

  lemma JudgeOne(a: string)
    requires Number(a)
    ensures Judge(a) == if Value(a, 0) <= 1000 then InRange else TooLarge
  {
    hide DigitsAt, Value;
    assert a[..|a|] == a;
  }

  lemma JudgeOpen(a: string)
    requires Number(a) && DigitsAt(a + ",") == |a|
    ensures Judge(a + ",") == if Value(a, 0) <= 1000 then InRange else TooLarge
  {
    hide DigitsAt, Value;
    assert (a + ",")[..|a|] == a && (a + ",")[|a|..] == ",";
  }

  lemma JudgeTwo(a: string, b: string)
    requires Number(a) && Number(b) && DigitsAt(a + ("," + b)) == |a|
    ensures Judge(a + "," + b) == if Value(a, 0) <= Value(b, 0) <= 1000 then InRange else TooLarge
  {
    hide DigitsAt, Value;
    var s := a + ("," + b);
    assert a + "," + b == s && s[..|a|] == a && s[|a|] == ',' && s[|a| + 1..] == b;
    assert |s[|a|..]| == 1 + |b|;
  }

  /** And the bounds are read up to the }; a brace that no bounds follow is that character. */
  lemma {:induction false} BoundsAreRead(text: string, rest: string)
    requires forall i :: 0 <= i < |text| ==> '0' <= text[i] <= '9' || text[i] == ','
    ensures BoundsIn(text + ['}'] + rest) == Some(text)
    decreases |text|
  {
    var s := text + ['}'] + rest;
    if text != "" {
      assert s[0] == text[0] && s[1..] == text[1..] + ['}'] + rest;
      BoundsAreRead(text[1..], rest);
      assert [text[0]] + text[1..] == text;
    }
  }

  lemma BraceIsItself(rest: string, p: Place)
    requires rest == "" || !('0' <= rest[0] <= '9')
    ensures Re2Char('{', rest, p) == (Lit('{'), Plain(p))
  {
    var b := BoundsIn(rest);
    if b.Some? && b.value != "" {
      FirstBound(rest);
    }
  }

  lemma FirstBound(s: string)
    requires BoundsIn(s).Some? && BoundsIn(s).value != ""
    ensures s != "" && BoundsIn(s).value[0] == s[0]
  {
  }

  /** The index of the next ":]" at or after i. */
  function NameEnd(s: string, i: nat): (j: Option<nat>)
    ensures j.Some? ==> i <= j.value && j.value + 1 < |s| && s[j.value] == ':' && s[j.value + 1] == ']'
    ensures j.Some? ==> forall k :: i <= k < j.value ==> !(s[k] == ':' && s[k + 1] == ']')
    ensures j.None? ==> forall k :: i <= k && k + 1 < |s| ==> !(s[k] == ':' && s[k + 1] == ']')
    decreases |s| - i
  {
    if i + 1 >= |s| then None
    else if s[i] == ':' && s[i + 1] == ']' then Some(i)
    else NameEnd(s, i + 1)
  }

  /** The items of an RE2 bracket whose list continues with s, and what follows its ]. */
  function Re2Items(s: string): (r: Option<(seq<Item>, string)>)
    ensures r.Some? ==> |r.value.1| < |s|
    decreases |s|
  {
    if s == "" then None
    else if s[0] == ']' then Some(([], s[1..]))
    else if s[0] == '\\' then
      if |s| < 2 then None
      else
        match Re2Items(s[2..])
        case None => None
        case Some((items, rest)) =>
          Some(([Ch(if s[1] == 'n' then '\n' else if s[1] == 't' then '\t' else s[1])] + items, rest))
    else if s[0] == '[' && |s| > 1 && s[1] == ':' && NameEnd(s, 2).Some? then
      var j := NameEnd(s, 2).value;
      match Re2Items(s[j + 2..])
      case None => None
      case Some((items, rest)) => Some(([Named(s[2..j])] + items, rest))
    else
      match Re2Items(s[1..])
      case None => None
      case Some((items, rest)) => Some(([Ch(s[0])] + items, rest))
  }

  function Re2Bracket(s: string): (r: Option<(Tok, string)>)
    ensures r.Some? ==> |r.value.1| < |s|
  {
    var negated := s != "" && s[0] == '^';
    match Re2Items(if negated then s[1..] else s)
    case None => None
    case Some((items, rest)) => Some((Bracket(negated, items), rest))
  }

  function ReadRe2(s: string, p: Place): Option<seq<Tok>>
    decreases |s|
  {
    if s == "" then Some([])
    else if s[0] == '\\' then
      if |s| < 2 then None else Prefixed(EscapedRe2(s[1]), ReadRe2(s[2..], Plain(p)))
    else if s[0] == '[' then
      match Re2Bracket(s[1..])
      case None => None
      case Some((tok, rest)) => Prefixed(tok, ReadRe2(rest, Plain(p)))
    else
      var (tok, p') := Re2Char(s[0], s[1..], p);
      Prefixed(tok, ReadRe2(s[1..], p'))
  }

  function Prefixed(tok: Tok, rest: Option<seq<Tok>>): Option<seq<Tok>> {
    match rest case None => None case Some(toks) => Some([tok] + toks)
  }

  // ---- reading POSIX ----

  /** Start: the next character begins an expression. Caret: it follows a leading ^. */
  datatype Context = Start | Caret | Middle

  /** A delimiter is itself when it is escaped: whatever it would be otherwise, but for n, which stands for a newline.
      As a backslash it is one in either way. */
  predicate Escaped(src: string, i: nat, delim: char) {
    i + 1 < |src| && src[i] == '\\' && src[i + 1] == delim && delim != 'n' && delim != '\n' && delim != '\\'
  }

  /** The index of the next ":]" at or after i, past escaped delimiters. */
  function PosixNameEnd(s: string, i: nat, delim: char): (j: Option<nat>)
    ensures j.Some? ==> i <= j.value && j.value + 1 < |s|
    decreases |s| - i
  {
    if i + 1 >= |s| then None
    else if Escaped(s, i, delim) then PosixNameEnd(s, i + 2, delim)
    else if s[i] == ':' && s[i + 1] == ']' then Some(i)
    else PosixNameEnd(s, i + 1, delim)
  }

  /** A text without the backslashes of its escaped delimiters. */
  function Unescaped(s: string, delim: char): string {
    if s == "" then ""
    else if Escaped(s, 0, delim) then [delim] + Unescaped(s[2..], delim)
    else [s[0]] + Unescaped(s[1..], delim)
  }

  /** The list of a bracket that continues at src[i]: its items and the index of its ]. */
  function PosixItems(src: string, i: nat, delim: char): (r: Result<(seq<Item>, nat), Error>)
    requires i <= |src|
    ensures r.Ok? ==> i <= r.value.1 < |src|
    decreases |src| - i
  {
    if i == |src| then Err(Unterminated)
    else if Escaped(src, i, delim) then WithItem(Ch(delim), PosixItems(src, i + 2, delim))
    else if src[i] == ']' then Ok(([], i))
    else if src[i] == '[' && i + 1 < |src| && src[i + 1] == ':' then
      match PosixNameEnd(src, i + 2, delim)
      case None => Err(Unterminated)
      case Some(j) => WithItem(Named(Unescaped(src[i + 2..j], delim)), PosixItems(src, j + 2, delim))
    else if src[i] == '[' && i + 1 < |src| && (src[i + 1] == '.' || src[i + 1] == '=') then Err(Collating)
    else if src[i] == '\\' && i + 1 < |src| && KeepsMeaning(src[i + 1]) then
      WithItem(Ch(KeptMeaning(src[i + 1])), PosixItems(src, i + 2, delim))
    else WithItem(Ch(src[i]), PosixItems(src, i + 1, delim))
  }

  function KeptMeaning(c: char): char {
    if c == 'n' then '\n' else if c == 't' then '\t' else '\\'
  }

  function WithItem(item: Item, rest: Result<(seq<Item>, nat), Error>): Result<(seq<Item>, nat), Error> {
    match rest
    case Err(e) => Err(e)
    case Ok((items, j)) => Ok(([item] + items, j))
  }

  /** Where the list of the bracket whose [ is src[i] starts, after a ^ and a ] that comes first and is an item. */
  function ListStart(src: string, i: nat): (n: nat)
    requires i < |src|
    ensures i < n <= |src|
  {
    var from := if Negated(src, i) then i + 2 else i + 1;
    if CloseFirst(src, i) then from + 1 else from
  }

  predicate Negated(src: string, i: nat) {
    i + 1 < |src| && src[i + 1] == '^'
  }

  /** The bracket expression whose [ is src[i], from the items of its list. */
  function BracketOf(src: string, i: nat, list: Result<(seq<Item>, nat), Error>): Result<(Tok, nat), Error>
    requires i < |src|
  {
    match list
    case Err(e) => Err(e)
    case Ok((items, j)) => Ok((Bracket(Negated(src, i), if CloseFirst(src, i) then [Ch(']')] + items else items), j))
  }

  predicate CloseFirst(src: string, i: nat) {
    var from := if Negated(src, i) then i + 2 else i + 1;
    from < |src| && src[from] == ']'
  }

  function PosixBracket(src: string, i: nat, delim: char): (r: Result<(Tok, nat), Error>)
    requires i < |src|
    ensures r.Ok? ==> i < r.value.1 < |src|
  {
    BracketOf(src, i, PosixItems(src, ListStart(src, i), delim))
  }

  /** A repetition; where none can be, the character itself. */
  function RepeatIn(c: char, ctx: Context, p: Place): (Tok, Place) {
    if ctx == Middle then (Repeat(c), p.(afterRep := true)) else (Lit(c), Plain(p))
  }

  /** What translate looks for after a $. */
  predicate EndsExpression(src: string, i: nat) {
    i == |src| || (i + 1 < |src| && src[i] == '\\' && (src[i + 1] == ')' || src[i + 1] == '|'))
  }

  /** Does an expression end at src[i]? An escaped delimiter is a character, whatever it would be otherwise. */
  predicate PosixEnds(src: string, i: nat, delim: char) {
    EndsExpression(src, i) && (i < |src| ==> src[i + 1] != delim)
  }

  /** What is read, where the next thing starts, and the context and place there. */
  datatype Read = Read(tok: Tok, next: nat, ctx: Context, place: Place)

  /** A backslash and the character after it. */
  function PosixEscape(c: char, ere: bool, delim: char, next: nat, ctx: Context, p: Place): Result<Read, Error> {
    if c == delim && delim != 'n' && delim != '\n' then Ok(Read(Lit(c), next, Middle, Plain(p)))
    else if !ere && c == '(' then Ok(Read(Open, next, Start, Plain(p)))
    else if !ere && c == '|' then Ok(Read(Alt, next, Start, Plain(p)))
    else if !ere && c == ')' then Ok(Read(Close, next, Middle, Plain(p)))
    else if !ere && c == '{' then Ok(Read(IntervalOpen, next, Middle, Place(false, true)))
    else if !ere && c == '}' then
      Ok(if p.inInterval then Read(IntervalClose, next, Middle, Place(true, false))
        else Read(Lit('}'), next, Middle, Plain(p)))
    else if !ere && (c == '+' || c == '?') then
      var (tok, p') := RepeatIn(c, ctx, p);
      Ok(Read(tok, next, Middle, p'))
    else if '1' <= c <= '9' then Err(BackReference)
    else
      Ok(Read(if c == 'n' then Lit('\n')
              else if c == 't' then Lit('\t')
              else if c == '<' || c == '>' || c == 'b' then Boundary
              else if c == '`' then TextStart
              else if c == '\'' then TextEnd
              else if IsClass(c) then Class(c)
              else Lit(c), next, Middle, Plain(p)))
  }

  function PosixRead(src: string, i: nat, ere: bool, delim: char, ctx: Context, p: Place): (r: Result<Read, Error>)
    requires i < |src|
    ensures r.Ok? ==> i < r.value.next <= |src|
  {
    var c := src[i];
    if c == '\\' then
      if i + 1 == |src| then Err(TrailingBackslash) else PosixEscape(src[i + 1], ere, delim, i + 2, ctx, p)
    else if c == '[' then
      match PosixBracket(src, i, delim)
      case Err(e) => Err(e)
      case Ok((tok, j)) => Ok(Read(tok, j + 1, Middle, Plain(p)))
    else if c == '*' then
      var (tok, p') := RepeatIn(c, ctx, p);
      Ok(Read(tok, i + 1, Middle, p'))
    else if c == '^' then
      if ere then Ok(Read(LineStart, i + 1, if ctx == Middle then Middle else Caret, Plain(p)))
      else if ctx == Start then Ok(Read(LineStart, i + 1, Caret, Plain(p)))
      else Ok(Read(Lit('^'), i + 1, Middle, Plain(p)))
    else if c == '$' then
      Ok(Read(if ere || PosixEnds(src, i + 1, delim) then LineEnd else Lit('$'), i + 1, Middle, Plain(p)))
    else if c == '.' then Ok(Read(Any, i + 1, Middle, Plain(p)))
    else if !ere then Ok(Read(Lit(c), i + 1, Middle, Plain(p)))
    else if c == '(' then Ok(Read(Open, i + 1, Start, Plain(p)))
    else if c == '|' then Ok(Read(Alt, i + 1, Start, Plain(p)))
    else if c == ')' then Ok(Read(Close, i + 1, Middle, Plain(p)))
    else if c == '+' || c == '?' then
      var (tok, p') := RepeatIn(c, ctx, p);
      Ok(Read(tok, i + 1, Middle, p'))
    else if c == '{' then
      Ok(if ctx == Middle then Read(IntervalOpen, i + 1, Middle, Place(false, true))
        else Read(Lit('{'), i + 1, Middle, Plain(p)))
    else if c == '}' && p.inInterval then Ok(Read(IntervalClose, i + 1, Middle, Place(true, false)))
    else Ok(Read(Lit(c), i + 1, Middle, Plain(p)))
  }

  function ReadPosix(src: string, i: nat, ere: bool, delim: char, ctx: Context, p: Place): Result<seq<Tok>, Error>
    requires i <= |src|
    decreases |src| - i
  {
    if i == |src| then Ok([])
    else
      match PosixRead(src, i, ere, delim, ctx, p)
      case Err(e) => Err(e)
      case Ok(r) =>
        match ReadPosix(src, r.next, ere, delim, r.ctx, r.place)
        case Err(e) => Err(e)
        case Ok(toks) => Ok([r.tok] + toks)
  }

  // ---- what the reading says, character by character ----

  /** GNU's escapes: character classes and control characters go by their letters, and n, t, b, <, >, ` and ' stand for
      a newline, a tab, a word boundary, and the text's start and end; digits are back-references; an escaped delimiter
      and any other character are themselves. */
  lemma EscapesMean(src: string, i: nat, ere: bool, delim: char, ctx: Context, p: Place)
    requires i + 1 < |src| && src[i] == '\\'
    requires var c := src[i + 1]; ere || (c !in "(){}+?|")
    ensures
      var c, r := src[i + 1], PosixRead(src, i, ere, delim, ctx, p);
      if c == delim && delim != 'n' && delim != '\n' then r == Ok(Read(Lit(c), i + 2, Middle, Plain(p)))
      else if c in "123456789" then r == Err(BackReference)
      else
        && r.Ok? && r.value.next == i + 2 && r.value.ctx == Middle && r.value.place == Plain(p)
        && (c in "wWsSBafvr" ==> r.value.tok == Class(c))
        && (c == 'n' ==> r.value.tok == Lit('\n')) && (c == 't' ==> r.value.tok == Lit('\t'))
        && (c in "b<>" ==> r.value.tok == Boundary)
        && (c == '`' ==> r.value.tok == TextStart) && (c == '\'' ==> r.value.tok == TextEnd)
        && (c !in "wWsSBafvrntb<>`'" ==> r.value.tok == Lit(c))
  {
  }

  /** A $ ends a line at the end of the expression, before an escaped ) or |, and anywhere in an extended one;
      otherwise, and before a delimiter that is escaped, it is itself. */
  lemma DollarMeans(src: string, i: nat, ere: bool, delim: char, ctx: Context, p: Place)
    requires i < |src| && src[i] == '$'
    ensures
      var ends := |src| == i + 1 ||
        (|src| > i + 2 && src[i + 1] == '\\' && (src[i + 2] == ')' || src[i + 2] == '|') && src[i + 2] != delim);
      PosixRead(src, i, ere, delim, ctx, p) ==
      Ok(Read(if ere || ends then LineEnd else Lit('$'), i + 1, Middle, Plain(p)))
  {
  }

  /** A bracket's list begins after a ^, which negates it, and a ] that comes first is an item (section 9.3.5 of the
      POSIX Base Definitions). */
  lemma BracketMeans(src: string, i: nat, delim: char)
    requires i < |src| && src[i] == '['
    ensures
      var negated := i + 1 < |src| && src[i + 1] == '^';
      var from := if negated then i + 2 else i + 1;
      var first := from < |src| && src[from] == ']';
      PosixBracket(src, i, delim) ==
      match PosixItems(src, if first then from + 1 else from, delim)
      case Err(e) => Err(e)
      case Ok((items, j)) => Ok((Bracket(negated, (if first then [Ch(']')] else []) + items), j))
  {
    var list := PosixItems(src, ListStart(src, i), delim);
    if list.Ok? {
      assert [] + list.value.0 == list.value.0;
    }
  }

  /** In a list a backslash is itself, but before n, t and another one. */
  lemma BackslashMeans(src: string, i: nat, delim: char)
    requires i < |src| && src[i] == '\\' && !Escaped(src, i, delim)
    ensures
      PosixItems(src, i, delim) ==
      if i + 1 < |src| && src[i + 1] == 'n' then WithItem(Ch('\n'), PosixItems(src, i + 2, delim))
      else if i + 1 < |src| && src[i + 1] == 't' then WithItem(Ch('\t'), PosixItems(src, i + 2, delim))
      else if i + 1 < |src| && src[i + 1] == '\\' then WithItem(Ch('\\'), PosixItems(src, i + 2, delim))
      else WithItem(Ch('\\'), PosixItems(src, i + 1, delim))
  {
  }

  /** A $ before an escaped delimiter that would otherwise end an expression. */
  predicate WrongEnd(src: string, i: nat, ere: bool, delim: char)
    requires i < |src|
  {
    !ere && src[i] == '$' && EndsExpression(src, i + 1) && !PosixEnds(src, i + 1, delim)
  }

  /** A second ^ after a leading one, which a basic expression means literally. */
  predicate DoubledCaret(src: string, i: nat, ere: bool, ctx: Context)
    requires i < |src|
  {
    !ere && ctx == Caret && src[i] == '^'
  }

  /** No escaped delimiter in the name of a class that goes on at s[i]. */
  predicate NamePlain(s: string, i: nat, delim: char)
    decreases |s| - i
  {
    i + 1 >= |s| ||
    (!Escaped(s, i, delim) && ((s[i] == ':' && s[i + 1] == ']') || NamePlain(s, i + 1, delim)))
  }

  /** No escaped delimiter in the list of a bracket that goes on at src[i]. */
  predicate ListPlain(src: string, i: nat, delim: char)
    requires i <= |src|
    decreases |src| - i
  {
    i == |src| ||
    (!Escaped(src, i, delim) &&
     if src[i] == ']' then true
     else if src[i] == '[' && i + 1 < |src| && src[i + 1] == ':' then
       NamePlain(src, i + 2, delim) &&
       match NameEnd(src, i + 2) case None => true case Some(j) => ListPlain(src, j + 2, delim)
     else if src[i] == '[' && i + 1 < |src| && (src[i + 1] == '.' || src[i + 1] == '=') then true
     else if src[i] == '\\' && i + 1 < |src| && KeepsMeaning(src[i + 1]) then ListPlain(src, i + 2, delim)
     else ListPlain(src, i + 1, delim))
  }

  /** No escaped delimiter in the bracket whose [ is src[i], if there is one. */
  predicate BracketPlain(src: string, i: nat, delim: char)
    requires i < |src|
  {
    src[i] == '[' ==> ListPlain(src, ListStart(src, i), delim)
  }

  /** An expression with no escaped delimiter in a bracket, no repetition straight after another, bounds that RE2
      takes in every interval, and if it is a basic one no second ^ after a leading one and no $ before a delimiter )
      or | that is escaped. */
  predicate Clean(src: string, i: nat, ere: bool, delim: char, ctx: Context, p: Place)
    requires i <= |src|
    decreases |src| - i
  {
    i == |src| ||
    (BracketPlain(src, i, delim) &&
     match PosixRead(src, i, ere, delim, ctx, p)
     case Err(_) => false
     case Ok(r) =>
       && !(p.afterRep && (r.tok.Repeat? || r.tok.IntervalOpen?))
       && !DoubledCaret(src, i, ere, ctx) && !WrongEnd(src, i, ere, delim)
       && (r.tok.IntervalOpen? ==> PosixBounds(src, r.next, ere, delim, r.ctx, r.place) == InRange)
       && Clean(src, r.next, ere, delim, r.ctx, r.place))
  }

  /** The bounds of the interval whose inside starts at src[i]. */
  function PosixBounds(src: string, i: nat, ere: bool, delim: char, ctx: Context, p: Place): Bounds
    requires i <= |src|
  {
    match ReadPosix(src, i, ere, delim, ctx, p)
    case Err(_) => NoBounds
    case Ok(toks) => JudgeSome(BoundsOf(toks))
  }

  // ---- the translation ----

  /** One turn of translate's loop: what is written, the next index and atStart. */
  datatype Piece = Piece(out: string, next: nat, atStart: bool)

  function EscapePiece(c: char, ere: bool, delim: char, next: nat, wasStart: bool): Result<Piece, Error> {
    if c == delim && delim != 'n' && delim != '\n' then Ok(Piece(QuoteMeta(c), next, false))
    else if !ere && (c == '(' || c == '|') then Ok(Piece([c], next, true))
    else if !ere && (c == ')' || c == '{' || c == '}' || c == '+' || c == '?') then
      Ok(Piece(if wasStart && (c == '+' || c == '?') then ['\\', c] else [c], next, false))
    else if c == 'n' then Ok(Piece("\\n", next, false))
    else if c == 't' then Ok(Piece("\\t", next, false))
    else if c == '<' || c == '>' then Ok(Piece("\\b", next, false))
    else if c == '`' then Ok(Piece("\\A", next, false))
    else if c == '\'' then Ok(Piece("\\z", next, false))
    else if '1' <= c <= '9' then Err(BackReference)
    else if (c == 'b' || IsClass(c)) then Ok(Piece(['\\', c], next, false))
    else Ok(Piece(QuoteMeta(c), next, false))
  }

  /** The rest of a bracket from src[i] on in RE2 form, and the index of its ]. */
  function BracketRest(src: string, i: nat): (r: Result<(string, nat), Error>)
    requires i <= |src|
    ensures r.Ok? ==> i <= r.value.1 < |src|
    decreases |src| - i
  {
    if i == |src| then Err(Unterminated)
    else if src[i] == ']' then Ok(("]", i))
    else if src[i] == '[' && i + 1 < |src| && src[i + 1] == ':' then
      match NameEnd(src, i + 2)
      case None => Err(Unterminated)
      case Some(j) => WithText(src[i..j + 2], BracketRest(src, j + 2))
    else if src[i] == '[' && i + 1 < |src| && (src[i + 1] == '.' || src[i + 1] == '=') then Err(Collating)
    else if src[i] == '[' then WithText("\\[", BracketRest(src, i + 1))
    else if src[i] == '\\' && i + 1 < |src| && src[i + 1] == ']' then Ok(("\\\\]", i + 1))
    else if src[i] == '\\' && i + 1 < |src| && KeepsMeaning(src[i + 1]) then
      WithText(['\\', src[i + 1]], BracketRest(src, i + 2))
    else if src[i] == '\\' then WithText("\\\\", BracketRest(src, i + 1))
    else WithText([src[i]], BracketRest(src, i + 1))
  }

  function WithText(s: string, rest: Result<(string, nat), Error>): Result<(string, nat), Error> {
    match rest
    case Err(e) => Err(e)
    case Ok((t, j)) => Ok((s + t, j))
  }

  function BracketPiece(src: string, i: nat): (r: Result<(string, nat), Error>)
    requires i < |src|
    ensures r.Ok? ==> i < r.value.1 < |src|
  {
    WithText((if Negated(src, i) then "[^" else "[") + (if CloseFirst(src, i) then "\\]" else ""),
             BracketRest(src, ListStart(src, i)))
  }

  function NextPiece(src: string, i: nat, ere: bool, delim: char, atStart: bool): (r: Result<Piece, Error>)
    requires i < |src|
    ensures r.Ok? ==> i < r.value.next <= |src|
  {
    var c := src[i];
    if c == '\\' then
      if i + 1 >= |src| then Err(TrailingBackslash) else EscapePiece(src[i + 1], ere, delim, i + 2, atStart)
    else if c == '[' then
      match BracketPiece(src, i)
      case Err(e) => Err(e)
      case Ok((s, j)) => Ok(Piece(s, j + 1, false))
    else if c == '*' then Ok(Piece(if atStart then "\\*" else "*", i + 1, false))
    else if c == '^' then (if ere || atStart then Ok(Piece("^", i + 1, atStart)) else Ok(Piece("\\^", i + 1, false)))
    else if c == '$' then Ok(Piece(if ere || EndsExpression(src, i + 1) then "$" else "\\$", i + 1, false))
    else if !ere && IsOperator(c) then Ok(Piece(['\\', c], i + 1, false))
    else if ere && (c == '(' || c == '|') then Ok(Piece([c], i + 1, true))
    else if ere && (c == '+' || c == '?' || c == '{') && atStart then Ok(Piece(['\\', c], i + 1, false))
    else Ok(Piece([c], i + 1, false))
  }

  function Translation(src: string, i: nat, ere: bool, delim: char, atStart: bool): Result<string, Error>
    requires i <= |src|
    decreases |src| - i
  {
    if i == |src| then Ok("")
    else
      match NextPiece(src, i, ere, delim, atStart)
      case Err(e) => Err(e)
      case Ok(piece) =>
        match Translation(src, piece.next, ere, delim, piece.atStart)
        case Err(e) => Err(e)
        case Ok(rest) => Ok(piece.out + rest)
  }

  // ---- the loops of shell/sed/regex.go ----

  method Translate(src: string, ere: bool, delim: char) returns (r: Result<string, Error>)
    ensures r == Translation(src, 0, ere, delim, true)
  {
    hide NextPiece;
    var b, i, atStart := "", 0, true;
    WrittenFirst(Translation(src, 0, ere, delim, true));
    while i < |src|
      invariant 0 <= i <= |src|
      invariant Translation(src, 0, ere, delim, true) == Written(b, Translation(src, i, ere, delim, atStart))
    {
      var piece := NextPiece(src, i, ere, delim, atStart);
      if piece.Err? {
        return Err(piece.error);
      }
      WrittenTwice(b, piece.value.out, Translation(src, piece.value.next, ere, delim, piece.value.atStart));
      b, i, atStart := b + piece.value.out, piece.value.next, piece.value.atStart;
    }
    assert b + "" == b;
    return Ok(b);
  }

  /** What is written in front of the rest. */
  function Written(b: string, rest: Result<string, Error>): Result<string, Error> {
    match rest case Err(e) => Err(e) case Ok(s) => Ok(b + s)
  }

  lemma WrittenFirst(rest: Result<string, Error>)
    ensures Written("", rest) == rest
  {
    if rest.Ok? {
      assert "" + rest.value == rest.value;
    }
  }

  lemma WrittenTwice(a: string, b: string, rest: Result<string, Error>)
    ensures Written(a, Written(b, rest)) == Written(a + b, rest)
  {
    if rest.Ok? {
      assert a + (b + rest.value) == (a + b) + rest.value;
    }
  }

  // ---- what is copied of a bracket ----

  /** The items of what is copied from src[i] on: the delimiter plays no part. */
  function CopiedItems(src: string, i: nat): (r: Result<(seq<Item>, nat), Error>)
    requires i <= |src|
    ensures r.Ok? ==> i <= r.value.1 < |src|
    decreases |src| - i
  {
    if i == |src| then Err(Unterminated)
    else if src[i] == ']' then Ok(([], i))
    else if src[i] == '[' && i + 1 < |src| && src[i + 1] == ':' then
      match NameEnd(src, i + 2)
      case None => Err(Unterminated)
      case Some(j) => WithItem(Named(src[i + 2..j]), CopiedItems(src, j + 2))
    else if src[i] == '[' && i + 1 < |src| && (src[i + 1] == '.' || src[i + 1] == '=') then Err(Collating)
    else if src[i] == '\\' && i + 1 < |src| && KeepsMeaning(src[i + 1]) then
      WithItem(Ch(KeptMeaning(src[i + 1])), CopiedItems(src, i + 2))
    else WithItem(Ch(src[i]), CopiedItems(src, i + 1))
  }

  function CopiedBracket(src: string, i: nat): (r: Result<(Tok, nat), Error>)
    requires i < |src|
    ensures r.Ok? ==> i < r.value.1 < |src|
  {
    BracketOf(src, i, CopiedItems(src, ListStart(src, i)))
  }

  lemma {:induction false} PlainName(s: string, i: nat, delim: char)
    requires NamePlain(s, i, delim)
    ensures PosixNameEnd(s, i, delim) == NameEnd(s, i)
    ensures NameEnd(s, i).Some? ==> Unescaped(s[i..NameEnd(s, i).value], delim) == s[i..NameEnd(s, i).value]
    decreases |s| - i
  {
    if i + 1 < |s| && !(s[i] == ':' && s[i + 1] == ']') {
      PlainName(s, i + 1, delim);
      if NameEnd(s, i).Some? {
        var j := NameEnd(s, i).value;
        assert s[i..j][1..] == s[i + 1..j] && s[i..j][0] == s[i];
        assert [s[i]] + s[i + 1..j] == s[i..j];
      }
    }
  }

  lemma {:induction false} NameDiffers(s: string, i: nat, delim: char)
    requires !NamePlain(s, i, delim) && PosixNameEnd(s, i, delim).Some? && NameEnd(s, i).Some?
    ensures Unescaped(s[i..PosixNameEnd(s, i, delim).value], delim) != s[i..NameEnd(s, i).value]
    decreases |s| - i
  {
    var j, k := NameEnd(s, i).value, PosixNameEnd(s, i, delim).value;
    assert s[i..j] != "" && s[i..j][0] == s[i];
    if Escaped(s, i, delim) {
      assert Escaped(s[i..k], 0, delim);
      assert Unescaped(s[i..k], delim)[0] == delim;
    } else {
      NameDiffers(s, i + 1, delim);
      assert !Escaped(s[i..k], 0, delim) && s[i..k][1..] == s[i + 1..k] && s[i..j][1..] == s[i + 1..j];
      assert Unescaped(s[i..k], delim)[1..] == Unescaped(s[i + 1..k], delim);
    }
  }

  /** With no escaped delimiter what is copied has the items that are meant. */
  lemma {:induction false} PlainItems(src: string, i: nat, delim: char)
    requires i <= |src| && ListPlain(src, i, delim)
    ensures PosixItems(src, i, delim) == CopiedItems(src, i)
    decreases |src| - i
  {
    hide Unescaped, NameEnd, PosixNameEnd, NamePlain, Escaped, KeepsMeaning, WithItem, KeptMeaning;
    if i < |src| && src[i] != ']' {
      if src[i] == '[' && i + 1 < |src| && src[i + 1] == ':' {
        PlainName(src, i + 2, delim);
        if NameEnd(src, i + 2).Some? { PlainItems(src, NameEnd(src, i + 2).value + 2, delim); }
      } else if src[i] == '[' && i + 1 < |src| && (src[i + 1] == '.' || src[i + 1] == '=') {
      } else if src[i] == '\\' && i + 1 < |src| && KeepsMeaning(src[i + 1]) {
        PlainItems(src, i + 2, delim);
      } else {
        PlainItems(src, i + 1, delim);
      }
    }
  }

  /** And with one it has others. */
  lemma {:induction false} ItemsDiffer(src: string, i: nat, delim: char)
    requires i <= |src| && !ListPlain(src, i, delim)
    requires PosixItems(src, i, delim).Ok? && CopiedItems(src, i).Ok?
    ensures PosixItems(src, i, delim).value.0 != CopiedItems(src, i).value.0
    decreases |src| - i
  {
    hide Unescaped, NameEnd, PosixNameEnd, NamePlain;
    if Escaped(src, i, delim) {
      assert PosixItems(src, i, delim).value.0[0] == Ch(delim) != CopiedItems(src, i).value.0[0];
    } else if src[i] == '[' && i + 1 < |src| && src[i + 1] == ':' {
      var j, k := NameEnd(src, i + 2).value, PosixNameEnd(src, i + 2, delim).value;
      if NamePlain(src, i + 2, delim) {
        PlainName(src, i + 2, delim);
        ItemsDiffer(src, j + 2, delim);
        HeadAndTail(Named(src[i + 2..j]), PosixItems(src, j + 2, delim).value.0, CopiedItems(src, j + 2).value.0);
      } else {
        NameDiffers(src, i + 2, delim);
        assert PosixItems(src, i, delim).value.0[0] == Named(Unescaped(src[i + 2..k], delim));
        assert CopiedItems(src, i).value.0[0] == Named(src[i + 2..j]);
      }
    } else {
      var n := if src[i] == '\\' && i + 1 < |src| && KeepsMeaning(src[i + 1]) then i + 2 else i + 1;
      var c := if n == i + 2 then KeptMeaning(src[i + 1]) else src[i];
      ItemsDiffer(src, n, delim);
      HeadAndTail(Ch(c), PosixItems(src, n, delim).value.0, CopiedItems(src, n).value.0);
    }
  }

  lemma HeadAndTail(x: Item, s: seq<Item>, t: seq<Item>)
    ensures s != t ==> [x] + s != [x] + t
  {
    assert ([x] + s)[1..] == s && ([x] + t)[1..] == t;
  }

  /** The delimiters that an escaped one can make a bracket of another extent. */
  predicate Bends(delim: char) {
    delim == '[' || delim == ':' || delim == ']'
  }

  lemma {:induction false} SameNameEnd(s: string, i: nat, delim: char)
    requires delim != ':'
    ensures PosixNameEnd(s, i, delim) == NameEnd(s, i)
    decreases |s| - i
  {
    if i + 1 < |s| {
      if Escaped(s, i, delim) {
        SameNameEnd(s, i + 2, delim);
      } else if !(s[i] == ':' && s[i + 1] == ']') {
        SameNameEnd(s, i + 1, delim);
      }
    }
  }

  /** What is copied of an escaped delimiter is one item or two, and the list goes on after it. */
  lemma CopiedEscape(src: string, i: nat, delim: char)
    requires i <= |src| && Escaped(src, i, delim) && !Bends(delim)
    ensures
      var rest := CopiedItems(src, i + 2);
      CopiedItems(src, i) ==
        if delim == 't' then WithItem(Ch('\t'), rest) else WithItem(Ch('\\'), WithItem(Ch(delim), rest))
  {
    hide NameEnd, WithItem;
    assert delim != 't' ==> CopiedItems(src, i + 1) == WithItem(Ch(delim), CopiedItems(src, i + 2));
  }

  /** An escaped delimiter of another kind leaves the extent of a bracket, or what is wrong with it, as it is. */
  lemma {:induction false} SameExtent(src: string, i: nat, delim: char)
    requires i <= |src| && !Bends(delim)
    ensures match CopiedItems(src, i)
      case Err(e) => PosixItems(src, i, delim) == Err(e)
      case Ok((_, j)) => PosixItems(src, i, delim).Ok? && PosixItems(src, i, delim).value.1 == j
    decreases |src| - i
  {
    hide Unescaped, NameEnd, PosixNameEnd, KeepsMeaning, KeptMeaning;
    if i < |src| && src[i] != ']' {
      if Escaped(src, i, delim) {
        CopiedEscape(src, i, delim);
        SameExtent(src, i + 2, delim);
      } else if src[i] == '[' && i + 1 < |src| && src[i + 1] == ':' {
        SameNameEnd(src, i + 2, delim);
        if NameEnd(src, i + 2).Some? { SameExtent(src, NameEnd(src, i + 2).value + 2, delim); }
      } else if src[i] == '[' && i + 1 < |src| && (src[i + 1] == '.' || src[i + 1] == '=') {
      } else {
        SameExtent(src, if src[i] == '\\' && i + 1 < |src| && KeepsMeaning(src[i + 1]) then i + 2 else i + 1, delim);
      }
    }
  }

  // ---- both readings agree ----

  lemma SameNext(src: string, i: nat, ere: bool, delim: char, ctx: Context, p: Place, ctx': Context, p': Place)
    requires i < |src|
    ensures var r, r' := PosixRead(src, i, ere, delim, ctx, p), PosixRead(src, i, ere, delim, ctx', p');
      r.Ok? == r'.Ok? && (r.Ok? ==> r.value.next == r'.value.next) && (r.Err? ==> r.error == r'.error)
  {
    hide PosixBracket, EndsExpression, PosixEscape;
    if src[i] == '\\' && i + 1 < |src| {
      EscapeSameNext(src[i + 1], ere, delim, i + 2, ctx, p, ctx', p');
    }
  }

  lemma EscapeSameNext(c: char, ere: bool, delim: char, next: nat, ctx: Context, p: Place, ctx': Context, p': Place)
    ensures var r, r' := PosixEscape(c, ere, delim, next, ctx, p), PosixEscape(c, ere, delim, next, ctx', p');
      r.Ok? == r'.Ok? && (r.Ok? ==> r.value.next == r'.value.next == next) && (r.Err? ==> r.error == r'.error)
  {
  }

  lemma NameEndIs(s: string, i: nat, j: nat)
    requires i <= j && j + 1 < |s| && s[j] == ':' && s[j + 1] == ']'
    requires forall k :: i <= k < j ==> !(s[k] == ':' && s[k + 1] == ']')
    ensures NameEnd(s, i) == Some(j)
  {
  }

  /** A named class copied from the source is read as itself. */
  lemma NamedReads(src: string, i: nat, j: nat, t: string)
    requires i + 1 < |src| && src[i] == '[' && src[i + 1] == ':' && NameEnd(src, i + 2) == Some(j)
    ensures var s := src[i..j + 2] + t;
      NameEnd(s, 2) == Some(j - i) && s[2..j - i] == src[i + 2..j] && s[j - i + 2..] == t
  {
    var s := src[i..j + 2] + t;
    assert forall k :: 0 <= k < j + 2 - i ==> s[k] == src[i + k];
    NameEndIs(s, 2, j - i);
  }

  lemma ItemReads(s: string, item: Item, t: string, rest: string)
    requires item.Ch?
    requires if |s| == 2 then
        s[0] == '\\' && item.c == (if s[1] == 'n' then '\n' else if s[1] == 't' then '\t' else s[1])
             else s == [item.c] && item.c != '[' && item.c != ']' && item.c != '\\'
    ensures Re2Items(s + t + rest) ==
      match Re2Items(t + rest) case None => None case Some((items, u)) => Some(([item] + items, u))
  {
    assert (s + t + rest)[|s|..] == t + rest;
  }

  /** What was written for the rest of a bracket is read as these items, with the rest left. */
  predicate Agree(written: Result<(string, nat), Error>, items: Result<(seq<Item>, nat), Error>, rest: string) {
    match written
    case Err(e) => items == Err(e)
    case Ok((s, j)) => items.Ok? && items.value.1 == j && Re2Items(s + rest) == Some((items.value.0, rest))
  }

  lemma AgreeItem(s: string, item: Item, w: Result<(string, nat), Error>, items: Result<(seq<Item>, nat), Error>,
        rest: string)
    requires Agree(w, items, rest) && item.Ch?
    requires if |s| == 2 then
        s[0] == '\\' && item.c == (if s[1] == 'n' then '\n' else if s[1] == 't' then '\t' else s[1])
             else s == [item.c] && item.c != '[' && item.c != ']' && item.c != '\\'
    ensures Agree(WithText(s, w), WithItem(item, items), rest)
  {
    hide Re2Items;
    if w.Ok? {
      ItemReads(s, item, w.value.0, rest);
    }
  }

  lemma AgreeNamed(src: string, i: nat, j: nat, w: Result<(string, nat), Error>, items: Result<(seq<Item>, nat), Error>,
                   rest: string)
    requires i + 1 < |src| && src[i] == '[' && src[i + 1] == ':' && NameEnd(src, i + 2) == Some(j)
    requires Agree(w, items, rest)
    ensures Agree(WithText(src[i..j + 2], w), WithItem(Named(src[i + 2..j]), items), rest)
  {
    hide Re2Items, NameEnd;
    if w.Ok? {
      NamedItemReads(src, i, j, w.value.0, rest);
    }
  }

  lemma AgreeClose(src: string, i: nat, rest: string)
    requires i < |src| && src[i] == ']'
    ensures Agree(Ok(("]", i)), CopiedItems(src, i), rest)
  {
    CloseReads(rest);
  }

  lemma {:induction false} ItemsRead(src: string, i: nat, rest: string)
    requires i <= |src|
    ensures Agree(BracketRest(src, i), CopiedItems(src, i), rest)
    decreases |src| - i
  {
    hide Re2Items, Agree, WithText, WithItem, NameEnd, KeepsMeaning;
    if i == |src| {
      SameError(Unterminated, rest);
    } else if src[i] == ']' {
      AgreeClose(src, i, rest);
    } else if src[i] == '[' && i + 1 < |src| && src[i + 1] == ':' {
      if NameEnd(src, i + 2).Some? {
        var j := NameEnd(src, i + 2).value;
        ItemsRead(src, j + 2, rest);
        AgreeNamed(src, i, j, BracketRest(src, j + 2), CopiedItems(src, j + 2), rest);
      } else {
        SameError(Unterminated, rest);
      }
    } else if src[i] == '[' && i + 1 < |src| && (src[i + 1] == '.' || src[i + 1] == '=') {
      SameError(Collating, rest);
    } else if src[i] == '\\' && i + 1 < |src| && src[i + 1] == ']' {
      KeptMeanings(']');
      AgreeClose(src, i + 1, rest);
      AgreeItem("\\\\", Ch('\\'), Ok(("]", i + 1)), CopiedItems(src, i + 1), rest);
      TextThenClose(i + 1);
    } else if src[i] == '\\' && i + 1 < |src| && KeepsMeaning(src[i + 1]) {
      ItemsRead(src, i + 2, rest);
      var c := src[i + 1];
      KeptMeanings(c);
      AgreeItem(['\\', c], Ch(KeptMeaning(c)), BracketRest(src, i + 2),
                CopiedItems(src, i + 2), rest);
    } else {
      ItemsRead(src, i + 1, rest);
      var s := if src[i] == '[' || src[i] == '\\' then ['\\', src[i]] else [src[i]];
      AgreeItem(s, Ch(src[i]), BracketRest(src, i + 1), CopiedItems(src, i + 1), rest);
    }
  }

  lemma KeptMeanings(c: char)
    ensures KeepsMeaning(c) ==> c == 'n' || c == 't' || c == '\\'
  {
  }

  lemma SameError(e: Error, rest: string)
    ensures Agree(Err(e), Err(e), rest)
  {
  }

  lemma TextThenClose(j: nat)
    ensures WithText("\\\\", Ok(("]", j))) == Ok(("\\\\]", j))
  {
    assert "\\\\" + "]" == "\\\\]";
  }

  /** Only a ^ in the source begins what is written with one. */
  lemma CaretStays(src: string, i: nat)
    requires i <= |src| && BracketRest(src, i).Ok?
    ensures BracketRest(src, i).value.0 != "" && (BracketRest(src, i).value.0[0] == '^' ==> src[i] == '^')
  {
    hide NameEnd, KeepsMeaning;
  }

  lemma CloseReads(rest: string)
    ensures Re2Items("]" + rest) == Some(([], rest))
  {
    assert ("]" + rest)[1..] == rest;
  }

  lemma NamedItemReads(src: string, i: nat, j: nat, t: string, rest: string)
    requires i + 1 < |src| && src[i] == '[' && src[i + 1] == ':' && NameEnd(src, i + 2) == Some(j)
    ensures Re2Items(src[i..j + 2] + t + rest) ==
      match Re2Items(t + rest) case None => None case Some((items, u)) => Some(([Named(src[i + 2..j])] + items, u))
  {
    assert src[i..j + 2] + t + rest == src[i..j + 2] + (t + rest);
    NamedReads(src, i, j, t + rest);
  }

  /** A bracket expression is read as the items that are copied, and what follows it is left. */
  lemma BracketReads(src: string, i: nat, rest: string)
    requires i < |src|
    ensures match BracketPiece(src, i)
      case Err(e) => CopiedBracket(src, i) == Err(e)
      case Ok((s, j)) =>
        && CopiedBracket(src, i).Ok? && CopiedBracket(src, i).value.1 == j
        && s != "" && s[0] == '[' && Re2Bracket(s[1..] + rest) == Some((CopiedBracket(src, i).value.0, rest))
  {
    hide Re2Items, BracketRest, CopiedItems;
    var negated, first, start := Negated(src, i), CloseFirst(src, i), ListStart(src, i);
    ItemsRead(src, start, rest);
    var r := BracketRest(src, start);
    if r.Ok? {
      CaretStays(src, start);
      var body := (if first then "\\]" else "") + r.value.0;
      assert BracketPiece(src, i).value.0[1..] + rest == (if negated then "^" else "") + (body + rest);
      if first {
        ItemReads("\\]", Ch(']'), r.value.0, rest);
      } else {
        assert body + rest == r.value.0 + rest;
      }
      BodyReads(negated, body + rest);
    }
  }

  lemma BodyReads(negated: bool, t: string)
    requires !negated ==> t == "" || t[0] != '^'
    ensures Re2Bracket((if negated then "^" else "") + t) ==
      match Re2Items(t) case None => None case Some((items, rest)) => Some((Bracket(negated, items), rest))
  {
    if negated {
      assert ("^" + t)[1..] == t;
    } else {
      assert "" + t == t;
    }
  }

  /** The token RE2 reads where POSIX reads r, given the bounds after it. */
  function Re2Tok(r: Read, p: Place, wrongEnd: bool, b: Bounds): Tok {
    if wrongEnd then LineEnd
    else if r.tok.IntervalOpen? then Re2Brace(b, p).0
    else if p.afterRep && r.tok == Repeat('?') then Lazy
    else if p.afterRep && r.tok.Repeat? then Nested
    else r.tok
  }

  function Re2Place(r: Read, p: Place, b: Bounds): Place {
    if r.tok.IntervalOpen? then Re2Brace(b, p).1 else r.place
  }

  /** The bounds that what follows a { holds. */
  function Follows(rest: string): Bounds {
    JudgeSome(BoundsIn(rest))
  }

  /** A backslash and c written out are read as q, and the rest from place p'. */
  ghost predicate Reads(out: string, rest: string, p: Place, tok: Tok, p': Place) {
    ReadRe2(out + rest, p) == Prefixed(tok, ReadRe2(rest, p'))
  }

  ghost predicate ReadsAs(out: string, rest: string, p: Place, r: Read, wrongEnd: bool) {
    Reads(out, rest, p, Re2Tok(r, p, wrongEnd, Follows(rest)), Re2Place(r, p, Follows(rest)))
  }

  lemma CharReads(c: char, rest: string, p: Place)
    requires c != '\\' && c != '['
    ensures Reads([c], rest, p, Re2Char(c, rest, p).0, Re2Char(c, rest, p).1)
  {
    assert ([c] + rest)[1..] == rest;
  }

  lemma EscapedReads(d: char, rest: string, p: Place)
    ensures Reads(['\\', d], rest, p, EscapedRe2(d), Plain(p))
  {
    assert (['\\', d] + rest)[2..] == rest;
  }

  lemma QuotedReads(c: char, rest: string, p: Place)
    ensures Reads(QuoteMeta(c), rest, p, Lit(c), Plain(p))
  {
    if Special(c) { EscapedReads(c, rest, p); } else { CharReads(c, rest, p); }
  }

  /** The operators of a basic expression. */
  lemma OperatorReads(c: char, delim: char, next: nat, ctx: Context, p: Place, rest: string)
    requires IsOperator(c) && c != delim
    ensures var piece, r :=
      EscapePiece(c, false, delim, next, ctx != Middle).value, PosixEscape(c, false, delim, next, ctx, p).value;
      && r.next == piece.next && (piece.atStart <==> r.ctx != Middle)
      && ReadsAs(piece.out, rest, p, r, false)
  {
    hide Reads;
    if (c == '+' || c == '?') && ctx != Middle {
      EscapedReads(c, rest, p);
    } else {
      CharReads(c, rest, p);
    }
  }

  lemma EscapeReads(c: char, ere: bool, delim: char, next: nat, ctx: Context, p: Place, rest: string)
    ensures match EscapePiece(c, ere, delim, next, ctx != Middle)
      case Err(e) => PosixEscape(c, ere, delim, next, ctx, p) == Err(e)
      case Ok(piece) =>
        var r := PosixEscape(c, ere, delim, next, ctx, p);
        && r.Ok? && r.value.next == piece.next && (piece.atStart <==> r.value.ctx != Middle)
        && ReadsAs(piece.out, rest, p, r.value, false)
  {
    hide Reads, QuoteMeta, Re2Char;
    if c == delim && delim != 'n' && delim != '\n' {
      QuotedReads(c, rest, p);
    } else if !ere && IsOperator(c) {
      OperatorReads(c, delim, next, ctx, p, rest);
    } else {
      var d := if c == '<' || c == '>' then 'b' else if c == '`' then 'A' else if c == '\'' then 'z' else c;
      if d != c || c == 'n' || c == 't' || c == 'b' || IsClass(c) {
        EscapedReads(d, rest, p);
      } else {
        QuotedReads(c, rest, p);
      }
    }
  }

  lemma EscapePieceReads(src: string, i: nat, ere: bool, delim: char, ctx: Context, p: Place, rest: string)
    requires i < |src| && src[i] == '\\'
    ensures match NextPiece(src, i, ere, delim, ctx != Middle)
      case Err(e) => PosixRead(src, i, ere, delim, ctx, p) == Err(e)
      case Ok(piece) =>
        var r := PosixRead(src, i, ere, delim, ctx, p);
        && r.Ok? && r.value.next == piece.next && (piece.atStart <==> r.value.ctx != Middle)
        && ReadsAs(piece.out, rest, p, r.value, false)
  {
    hide Reads, PosixEscape, EscapePiece;
    if i + 1 < |src| { EscapeReads(src[i + 1], ere, delim, i + 2, ctx, p, rest); }
  }

  lemma BracketPieceReads(src: string, i: nat, ere: bool, delim: char, ctx: Context, p: Place, rest: string)
    requires i < |src| && src[i] == '[' && BracketPlain(src, i, delim)
    ensures match NextPiece(src, i, ere, delim, ctx != Middle)
      case Err(e) => PosixRead(src, i, ere, delim, ctx, p) == Err(e)
      case Ok(piece) =>
        var r := PosixRead(src, i, ere, delim, ctx, p);
        && r.Ok? && r.value.next == piece.next && (piece.atStart <==> r.value.ctx != Middle)
        && ReadsAs(piece.out, rest, p, r.value, false)
  {
    hide Reads, PosixBracket, BracketPiece, CopiedBracket, ListPlain;
    ListReads(src, i, p, rest);
    PlainBracket(src, i, delim);
  }

  /** One turn of the translation is read as one POSIX token. */
  lemma PieceReads(src: string, i: nat, ere: bool, delim: char, ctx: Context, p: Place, rest: string)
    requires i < |src| && BracketPlain(src, i, delim)
    ensures match NextPiece(src, i, ere, delim, ctx != Middle)
      case Err(e) => PosixRead(src, i, ere, delim, ctx, p) == Err(e)
      case Ok(piece) =>
        var r := PosixRead(src, i, ere, delim, ctx, p);
        && r.Ok? && r.value.next == piece.next
        && (if DoubledCaret(src, i, ere, ctx)
            then piece.atStart && r.value.tok == Lit('^') && Reads(piece.out, rest, p, LineStart, Plain(p))
            else
              (piece.atStart <==> r.value.ctx != Middle) &&
              ReadsAs(piece.out, rest, p, r.value, WrongEnd(src, i, ere, delim)))
  {
    hide Reads, ReadsAs, EndsExpression, BracketPlain, BracketPiece, PosixBracket, EscapePiece, PosixEscape;
    var c := src[i];
    if c == '\\' {
      EscapePieceReads(src, i, ere, delim, ctx, p, rest);
    } else if c == '[' {
      BracketPieceReads(src, i, ere, delim, ctx, p, rest);
    } else if !ere {
      BasicReads(src, i, delim, ctx, p, rest);
    } else {
      ExtendedReads(src, i, delim, ctx, p, rest);
    }
  }

  lemma BasicReads(src: string, i: nat, delim: char, ctx: Context, p: Place, rest: string)
    requires i < |src| && src[i] != '\\' && src[i] != '['
    ensures var piece, r :=
      NextPiece(src, i, false, delim, ctx != Middle).value, PosixRead(src, i, false, delim, ctx, p).value;
      if DoubledCaret(src, i, false, ctx)
      then piece.atStart && r.tok == Lit('^') && Reads(piece.out, rest, p, LineStart, Plain(p))
      else (piece.atStart <==> r.ctx != Middle) && ReadsAs(piece.out, rest, p, r, WrongEnd(src, i, false, delim))
  {
    hide Reads, EndsExpression;
    var c := src[i];
    if IsOperator(c) || c == '*' || c == '^' || c == '$' {
      EscapedReads(c, rest, p);
    }
    if !IsOperator(c) {
      CharReads(c, rest, p);
    }
  }

  lemma ExtendedReads(src: string, i: nat, delim: char, ctx: Context, p: Place, rest: string)
    requires i < |src| && src[i] != '\\' && src[i] != '['
    ensures var piece, r :=
      NextPiece(src, i, true, delim, ctx != Middle).value, PosixRead(src, i, true, delim, ctx, p).value;
      (piece.atStart <==> r.ctx != Middle) && ReadsAs(piece.out, rest, p, r, false)
  {
    hide Reads, EndsExpression;
    var c := src[i];
    if ctx != Middle && (c == '*' || c == '+' || c == '?' || c == '{') {
      EscapedReads(c, rest, p);
    } else {
      CharReads(c, rest, p);
    }
  }

  lemma ListReads(src: string, i: nat, p: Place, rest: string)
    requires i < |src|
    ensures match BracketPiece(src, i)
      case Err(e) => CopiedBracket(src, i) == Err(e)
      case Ok((s, j)) =>
        && CopiedBracket(src, i).Ok? && CopiedBracket(src, i).value.1 == j && CopiedBracket(src, i).value.0.Bracket?
        && Reads(s, rest, p, CopiedBracket(src, i).value.0, Plain(p))
  {
    hide Re2Bracket;
    BracketReads(src, i, rest);
    var r := BracketPiece(src, i);
    if r.Ok? {
      assert (r.value.0 + rest)[1..] == r.value.0[1..] + rest;
    }
  }

  lemma PlainBracket(src: string, i: nat, delim: char)
    requires i < |src| && src[i] == '[' && BracketPlain(src, i, delim)
    ensures PosixBracket(src, i, delim) == CopiedBracket(src, i)
  {
    hide ListPlain, PosixItems, CopiedItems;
    PlainItems(src, ListStart(src, i), delim);
  }

  /** A bracket with an escaped delimiter is another one as it is copied, or no bracket as it is meant; what RE2 reads
      of it depends on nothing before. */
  lemma BracketDiffers(src: string, i: nat, ere: bool, delim: char, ctx: Context, p: Place, rest: string)
    requires i < |src| && !BracketPlain(src, i, delim)
    ensures
      var piece, r := NextPiece(src, i, ere, delim, ctx != Middle), PosixRead(src, i, ere, delim, ctx, p);
      piece.Ok? ==>
        && !piece.value.atStart && CopiedBracket(src, i).Ok?
        && Reads(piece.value.out, rest, p, CopiedBracket(src, i).value.0, Plain(p))
        && (r.Ok? ==> r.value.tok != CopiedBracket(src, i).value.0)
  {
    hide Reads, ListPlain, PosixItems, CopiedItems, BracketPiece;
    ListReads(src, i, p, rest);
    var start := ListStart(src, i);
    if PosixItems(src, start, delim).Ok? && CopiedItems(src, start).Ok? {
      ItemsDiffer(src, start, delim);
      HeadAndTail(Ch(']'), PosixItems(src, start, delim).value.0, CopiedItems(src, start).value.0);
    }
  }

  lemma BracketExtent(src: string, i: nat, delim: char)
    requires i < |src| && !Bends(delim)
    ensures match CopiedBracket(src, i)
      case Err(e) => PosixBracket(src, i, delim) == Err(e)
      case Ok((_, j)) => PosixBracket(src, i, delim).Ok? && PosixBracket(src, i, delim).value.1 == j
  {
    hide PosixItems, CopiedItems;
    SameExtent(src, ListStart(src, i), delim);
  }

  lemma Cancel(a: Tok, s: seq<Tok>, b: Tok, t: seq<Tok>)
    ensures [a] + s == [b] + t <==> a == b && s == t
  {
    assert ([a] + s)[0] == a && ([b] + t)[0] == b && ([a] + s)[1..] == s && ([b] + t)[1..] == t;
  }

  /** Inside an interval, a character of bounds is written as itself and the closing as }, and nothing else is
      written so. */
  lemma BoundPiece(src: string, i: nat, ere: bool, delim: char)
    requires i < |src|
    requires NextPiece(src, i, ere, delim, false).Ok? && PosixRead(src, i, ere, delim, Middle, Place(false, true)).Ok?
    ensures
      var piece := NextPiece(src, i, ere, delim, false).value;
      var r := PosixRead(src, i, ere, delim, Middle, Place(false, true)).value;
      if r.tok.Lit? && BoundChar(r.tok.c)
      then piece.out == [r.tok.c] && !piece.atStart && r.ctx == Middle && r.place == Place(false, true)
      else if r.tok == IntervalClose then piece.out == "}"
      else piece.out != "" && piece.out[0] != '}' && !BoundChar(piece.out[0])
    ensures src[i] == '[' ==> PosixRead(src, i, ere, delim, Middle, Place(false, true)).value.tok.Bracket?
  {
    hide PosixItems, BracketRest, EndsExpression, EscapePiece, PosixEscape;
    if src[i] == '\\' {
      BoundEscape(src[i + 1], ere, delim, i + 2);
    }
  }

  lemma BoundEscape(c: char, ere: bool, delim: char, next: nat)
    requires EscapePiece(c, ere, delim, next, false).Ok?
      && PosixEscape(c, ere, delim, next, Middle, Place(false, true)).Ok?
    ensures
      var piece := EscapePiece(c, ere, delim, next, false).value;
      var r := PosixEscape(c, ere, delim, next, Middle, Place(false, true)).value;
      if r.tok.Lit? && BoundChar(r.tok.c)
      then piece.out == [r.tok.c] && !piece.atStart && r.ctx == Middle && r.place == Place(false, true)
      else if r.tok == IntervalClose then piece.out == "}"
      else piece.out != "" && piece.out[0] != '}' && !BoundChar(piece.out[0])
  {
  }

  lemma BoundsFirst(out: string, rest: string, tok: Tok, later: seq<Tok>)
    requires out != ""
    ensures tok.Lit? && BoundChar(tok.c) && out == [tok.c] ==>
      BoundsIn(out + rest) == Longer(tok.c, BoundsIn(rest)) && BoundsOf([tok] + later) == Longer(tok.c, BoundsOf(later))
    ensures tok == IntervalClose && out == "}" ==> BoundsIn(out + rest) == BoundsOf([tok] + later)
    ensures
      out[0] != '}' && !BoundChar(out[0]) && tok != IntervalClose && !(tok.Lit? && BoundChar(tok.c)) ==>
      BoundsIn(out + rest) == BoundsOf([tok] + later)
  {
    assert ([tok] + later)[1..] == later;
    if |out| == 1 {
      assert (out + rest)[1..] == rest;
    }
  }

  /** The bounds of an interval read the same in what is written for it. */
  lemma {:induction false} BoundsAgree(src: string, i: nat, ere: bool, delim: char)
    requires i <= |src|
    ensures
      var out, toks :=
        Translation(src, i, ere, delim, false), ReadPosix(src, i, ere, delim, Middle, Place(false, true));
      out.Ok? && toks.Ok? ==> BoundsIn(out.value) == BoundsOf(toks.value)
    decreases |src| - i
  {
    hide NextPiece, PosixRead, BoundChar;
    var out, toks := Translation(src, i, ere, delim, false), ReadPosix(src, i, ere, delim, Middle, Place(false, true));
    if i < |src| && out.Ok? && toks.Ok? {
      BoundPiece(src, i, ere, delim);
      if src[i] != '[' {
        PieceReads(src, i, ere, delim, Middle, Place(false, true), "");
        BoundsAgree(src, NextPiece(src, i, ere, delim, false).value.next, ere, delim);
      }
      var piece, r :=
        NextPiece(src, i, ere, delim, false).value, PosixRead(src, i, ere, delim, Middle, Place(false, true)).value;
      var rest := Translation(src, piece.next, ere, delim, piece.atStart).value;
      var later := ReadPosix(src, r.next, ere, delim, r.ctx, r.place).value;
      BoundsFirst(piece.out, rest, r.tok, later);
    }
  }

  /** What is clean is an expression. */
  lemma {:induction false} CleanReads(src: string, i: nat, ere: bool, delim: char, ctx: Context, p: Place)
    requires i <= |src| && Clean(src, i, ere, delim, ctx, p)
    ensures ReadPosix(src, i, ere, delim, ctx, p).Ok?
    decreases |src| - i
  {
    hide PosixRead, PosixBounds, BracketPlain;
    if i < |src| {
      var r := PosixRead(src, i, ere, delim, ctx, p).value;
      CleanReads(src, r.next, ere, delim, r.ctx, r.place);
    }
  }

  /** From any point in a source that translate accepts, RE2 reads the output as the tokens that are meant exactly when
      what is left of the source is clean. */
  lemma {:induction false} ReadsTheSame(src: string, i: nat, ere: bool, delim: char, ctx: Context, p: Place)
    requires i <= |src| && Translation(src, i, ere, delim, ctx != Middle).Ok?
    ensures
      var out, toks := Translation(src, i, ere, delim, ctx != Middle).value, ReadPosix(src, i, ere, delim, ctx, p);
      ReadRe2(out, p).Some? && (toks == Ok(ReadRe2(out, p).value) <==> Clean(src, i, ere, delim, ctx, p))
    decreases |src| - i
  {
    hide NextPiece, PosixRead, BoundsIn, BoundsOf, JudgeSome, Judge, Reads, BracketPlain, CopiedBracket;
    if i < |src| {
      var piece := NextPiece(src, i, ere, delim, ctx != Middle).value;
      var rest := Translation(src, piece.next, ere, delim, piece.atStart).value;
      if BracketPlain(src, i, delim) {
        PieceReads(src, i, ere, delim, ctx, p, rest);
        OneToken(src, i, ere, delim, ctx, p, rest);
      } else {
        BracketDiffers(src, i, ere, delim, ctx, p, rest);
        ReadsTheSame(src, piece.next, ere, delim, Middle, Plain(p));
        var tok := CopiedBracket(src, i).value.0;
        FirstToken(piece.out, rest, p, tok, Plain(p));
        var r := PosixRead(src, i, ere, delim, ctx, p);
        if r.Ok? && ReadPosix(src, r.value.next, ere, delim, r.value.ctx, r.value.place).Ok? {
          Cancel(tok, ReadRe2(rest, Plain(p)).value, r.value.tok,
                 ReadPosix(src, r.value.next, ere, delim, r.value.ctx, r.value.place).value);
        }
      }
    }
  }

  /** The same, with the next thing not such a bracket. */
  lemma {:induction false} OneToken(src: string, i: nat, ere: bool, delim: char, ctx: Context, p: Place, rest: string)
    requires i < |src| && BracketPlain(src, i, delim) && Translation(src, i, ere, delim, ctx != Middle).Ok?
    requires NextPiece(src, i, ere, delim, ctx != Middle).Ok? && PosixRead(src, i, ere, delim, ctx, p).Ok?
    requires
      var piece := NextPiece(src, i, ere, delim, ctx != Middle).value;
      Translation(src, piece.next, ere, delim, piece.atStart) == Ok(rest)
    ensures
      var out, toks := Translation(src, i, ere, delim, ctx != Middle).value, ReadPosix(src, i, ere, delim, ctx, p);
      ReadRe2(out, p).Some? && (toks == Ok(ReadRe2(out, p).value) <==> Clean(src, i, ere, delim, ctx, p))
    decreases |src| - i, 0
  {
    hide NextPiece, PosixRead, BoundsIn, BoundsOf, JudgeSome, Judge, Reads, BracketPlain;
    PieceReads(src, i, ere, delim, ctx, p, rest);
    var piece := NextPiece(src, i, ere, delim, ctx != Middle).value;
    var r := PosixRead(src, i, ere, delim, ctx, p).value;
    var b := Follows(rest);
    var caret := DoubledCaret(src, i, ere, ctx);
    // where RE2 goes on from: the same place, but for what it reads otherwise
    var ctx' := if caret then Caret else r.ctx;
    var q := if caret then Plain(p) else Re2Place(r, p, b);
    ReadsTheSame(src, r.next, ere, delim, ctx', q);
    var tok := if caret then LineStart else Re2Tok(r, p, WrongEnd(src, i, ere, delim), b);
    FirstToken(piece.out, rest, p, tok, q);
    if ReadPosix(src, r.next, ere, delim, r.ctx, r.place).Ok? {
      Cancel(tok, ReadRe2(rest, q).value, r.tok, ReadPosix(src, r.next, ere, delim, r.ctx, r.place).value);
      TokenKept(src, i, ere, delim, ctx, p);
    } else if Clean(src, r.next, ere, delim, r.ctx, r.place) {
      CleanReads(src, r.next, ere, delim, r.ctx, r.place);
    }
  }

  lemma FirstToken(out: string, rest: string, p: Place, tok: Tok, q: Place)
    requires Reads(out, rest, p, tok, q) && ReadRe2(rest, q).Some?
    ensures ReadRe2(out + rest, p) == Some([tok] + ReadRe2(rest, q).value)
  {
  }

  /** RE2 reads a token as it is meant, and goes on from the same place, exactly when nothing about it is
      unclean. */
  lemma TokenKept(src: string, i: nat, ere: bool, delim: char, ctx: Context, p: Place)
    requires i < |src| && PosixRead(src, i, ere, delim, ctx, p).Ok?
    requires NextPiece(src, i, ere, delim, ctx != Middle).Ok?
    requires var piece, r :=
      NextPiece(src, i, ere, delim, ctx != Middle).value, PosixRead(src, i, ere, delim, ctx, p).value;
      && r.next == piece.next && (piece.atStart <==> r.ctx != Middle || DoubledCaret(src, i, ere, ctx))
      && Translation(src, r.next, ere, delim, piece.atStart).Ok?
      && ReadPosix(src, r.next, ere, delim, r.ctx, r.place).Ok?
    ensures
      var piece, r := NextPiece(src, i, ere, delim, ctx != Middle).value, PosixRead(src, i, ere, delim, ctx, p).value;
      var b := Follows(Translation(src, r.next, ere, delim, piece.atStart).value);
      var stacked := p.afterRep && (r.tok.Repeat? || r.tok.IntervalOpen?);
      var bounded := r.tok.IntervalOpen? ==> PosixBounds(src, r.next, ere, delim, r.ctx, r.place) == InRange;
      && (DoubledCaret(src, i, ere, ctx) ==> r.tok != LineStart)
      && (!DoubledCaret(src, i, ere, ctx) ==>
            (Re2Tok(r, p, WrongEnd(src, i, ere, delim), b) == r.tok <==>
             !stacked && bounded && !WrongEnd(src, i, ere, delim)))
      && (!DoubledCaret(src, i, ere, ctx) && bounded ==> Re2Place(r, p, b) == r.place)
  {
    hide NextPiece, PosixRead, Judge, BoundsIn, BoundsOf, EndsExpression, Translation, ReadPosix;
    var r := PosixRead(src, i, ere, delim, ctx, p).value;
    TokenIs(src, i, ere, delim, ctx, p);
    if r.tok.IntervalOpen? {
      BoundsAgree(src, r.next, ere, delim);
    }
  }

  lemma TokenIs(src: string, i: nat, ere: bool, delim: char, ctx: Context, p: Place)
    requires i < |src| && PosixRead(src, i, ere, delim, ctx, p).Ok?
    ensures
      var r := PosixRead(src, i, ere, delim, ctx, p).value;
      && (r.tok.IntervalOpen? ==> r.ctx == Middle && r.place == Place(false, true))
      && (DoubledCaret(src, i, ere, ctx) ==> r.tok == Lit('^'))
      && (WrongEnd(src, i, ere, delim) ==> r.tok == Lit('$'))
  {
    hide PosixItems, EndsExpression;
  }

  /** Errors do not depend on the context. */
  lemma {:induction false} SameErrors(src: string, i: nat, ere: bool, delim: char, ctx: Context, p: Place,
        ctx': Context, p': Place)
    requires i <= |src|
    ensures var r, r' := ReadPosix(src, i, ere, delim, ctx, p), ReadPosix(src, i, ere, delim, ctx', p');
      r.Ok? == r'.Ok? && (r.Err? ==> r.error == r'.error)
    decreases |src| - i
  {
    hide PosixRead;
    if i < |src| {
      SameNext(src, i, ere, delim, ctx, p, ctx', p');
      var r, r' := PosixRead(src, i, ere, delim, ctx, p), PosixRead(src, i, ere, delim, ctx', p');
      if r.Ok? {
        SameErrors(src, r.value.next, ere, delim, r.value.ctx, r.value.place, r'.value.ctx, r'.value.place);
      }
    }
  }

  /** No escaped delimiter in any bracket from src[i] on. */
  predicate AllPlain(src: string, i: nat, delim: char)
    requires i <= |src|
    decreases |src| - i
  {
    if i == |src| then true
    else if src[i] == '\\' then i + 1 == |src| || AllPlain(src, i + 2, delim)
    else if src[i] == '[' then
      BracketPlain(src, i, delim) &&
      match CopiedBracket(src, i) case Err(_) => true case Ok((_, j)) => AllPlain(src, j + 1, delim)
    else AllPlain(src, i + 1, delim)
  }

  /** What comes next, and what is wrong with it, is the same for translate and as it is meant. */
  lemma SameStep(src: string, i: nat, ere: bool, delim: char, ctx: Context, p: Place)
    requires i < |src| && (BracketPlain(src, i, delim) || !Bends(delim))
    ensures match NextPiece(src, i, ere, delim, ctx != Middle)
      case Err(e) => PosixRead(src, i, ere, delim, ctx, p) == Err(e)
      case Ok(piece) =>
        && PosixRead(src, i, ere, delim, ctx, p).Ok? && PosixRead(src, i, ere, delim, ctx, p).value.next == piece.next
        && (src[i] == '[' ==> CopiedBracket(src, i).Ok? && piece.next == CopiedBracket(src, i).value.1 + 1)
        && (src[i] == '\\' ==> i + 1 < |src| && piece.next == i + 2)
        && (src[i] != '[' && src[i] != '\\' ==> piece.next == i + 1)
  {
    hide Reads, PosixBracket, CopiedBracket, BracketPiece, EndsExpression, ListPlain;
    if src[i] == '[' {
      ListReads(src, i, p, "");
      if BracketPlain(src, i, delim) { PlainBracket(src, i, delim); } else { BracketExtent(src, i, delim); }
    }
  }

  /** What translate accepts are the expressions, and it refuses others for what is wrong with them, unless an escaped
      delimiter [ or : or ] is in a bracket. */
  lemma {:induction false} AcceptsExpressions(src: string, i: nat, ere: bool, delim: char, atStart: bool, ctx: Context,
        p: Place)
    requires i <= |src| && (AllPlain(src, i, delim) || !Bends(delim))
    ensures match Translation(src, i, ere, delim, atStart)
      case Err(e) => ReadPosix(src, i, ere, delim, ctx, p) == Err(e)
      case Ok(_) => ReadPosix(src, i, ere, delim, ctx, p).Ok?
    decreases |src| - i
  {
    hide NextPiece, PosixRead, ListPlain, CopiedBracket;
    if i < |src| {
      var ctx' := if atStart then Start else Middle;
      SameStep(src, i, ere, delim, ctx', p);
      SameNext(src, i, ere, delim, ctx, p, ctx', p);
      var piece := NextPiece(src, i, ere, delim, atStart);
      if piece.Ok? {
        var r := PosixRead(src, i, ere, delim, ctx, p).value;
        AcceptsExpressions(src, r.next, ere, delim, piece.value.atStart, r.ctx, r.place);
      }
    }
  }

  /** The whole translation. */
  lemma TranslationReadsTheSame(src: string, ere: bool, delim: char)
    ensures
      var start := Place(false, false);
      var meant := ReadPosix(src, 0, ere, delim, Start, start);
      match Translation(src, 0, ere, delim, true)
      case Err(e) => AllPlain(src, 0, delim) || !Bends(delim) ==> meant == Err(e)
      case Ok(out) =>
        && ReadRe2(out, start).Some?
        && (meant == Ok(ReadRe2(out, start).value) <==> Clean(src, 0, ere, delim, Start, start))
        && (AllPlain(src, 0, delim) || !Bends(delim) ==> meant.Ok?)
  {
    if AllPlain(src, 0, delim) || !Bends(delim) {
      AcceptsExpressions(src, 0, ere, delim, true, Start, Place(false, false));
    }
    if Translation(src, 0, ere, delim, true).Ok? {
      ReadsTheSame(src, 0, ere, delim, Start, Place(false, false));
    }
  }

  /** Expressions that RE2 reads otherwise: with the usual delimiter the bracket of what is no slash; ^^ and, with the
      delimiter |, a$\|b in a basic one; a*? and a{x in an extended one. */
  lemma ReadOtherwise()
    ensures !Clean("[^\\/]", 0, false, '/', Start, Place(false, false))
    ensures !Clean("^^", 0, false, '/', Start, Place(false, false))
    ensures !Clean("a$\\|b", 0, false, '|', Start, Place(false, false))
    ensures !Clean("a*?", 0, true, '/', Start, Place(false, false))
    ensures !Clean("a{x", 0, true, '/', Start, Place(false, false))
  {
    hide *;
    NoSlash();
    CaretTwice();
    DollarBar();
    StarQuestion();
    BraceLetter();
    AfterLetter("a$\\|b", false, '|');
    AfterLetter("a*?", true, '/');
    AfterLetter("a{x", true, '/');
  }

  lemma NoSlash()
    ensures !Clean("[^\\/]", 0, false, '/', Start, Place(false, false))
  {
    assert ListStart("[^\\/]", 0) == 2;
    assert Escaped("[^\\/]", 2, '/');
  }

  /** With the delimiter [ an expression is refused, and with ] something is accepted that is none. */
  lemma BentBrackets()
    ensures Translation("[\\[:]", 0, false, '[', true).Err?
    ensures ReadPosix("[\\[:]", 0, false, '[', Start, Place(false, false)).Ok?
    ensures Translation("[\\]", 0, false, ']', true).Ok?
    ensures ReadPosix("[\\]", 0, false, ']', Start, Place(false, false)).Err?
  {
    OpenEscaped();
    CloseEscaped();
  }

  lemma OpenEscaped()
    ensures Translation("[\\[:]", 0, false, '[', true).Err?
    ensures ReadPosix("[\\[:]", 0, false, '[', Start, Place(false, false)).Ok?
  {
    var s := "[\\[:]";
    assert ListStart(s, 0) == 1;
    assert NameEnd(s, 4) == None;
    assert BracketRest(s, 2) == Err(Unterminated);
    assert BracketRest(s, 1) == Err(Unterminated);
    assert BracketPiece(s, 0).Err?;
    assert PosixItems(s, 3, '[') == WithItem(Ch(':'), PosixItems(s, 4, '['));
    assert PosixItems(s, 1, '[').Ok? && PosixItems(s, 1, '[').value.1 == 4;
    assert PosixBracket(s, 0, '[').Ok? && PosixBracket(s, 0, '[').value.1 == 4;
    assert ReadPosix(s, 5, false, '[', Middle, Place(false, false)) == Ok([]);
  }

  lemma CloseEscaped()
    ensures Translation("[\\]", 0, false, ']', true).Ok?
    ensures ReadPosix("[\\]", 0, false, ']', Start, Place(false, false)).Err?
  {
    var s := "[\\]";
    assert ListStart(s, 0) == 1;
    assert BracketRest(s, 1) == Ok(("\\\\]", 2));
    assert BracketPiece(s, 0).Ok? && BracketPiece(s, 0).value.1 == 2;
    assert Translation(s, 3, false, ']', false) == Ok("");
    assert PosixItems(s, 3, ']') == Err(Unterminated);
    assert PosixItems(s, 1, ']') == Err(Unterminated);
    assert PosixBracket(s, 0, ']').Err?;
  }

  lemma AfterLetter(src: string, ere: bool, delim: char)
    requires src != "" && src[0] == 'a'
    ensures Clean(src, 0, ere, delim, Start, Place(false, false))
      <==> Clean(src, 1, ere, delim, Middle, Place(false, false))
  {
  }

  lemma CaretTwice()
    ensures !Clean("^^", 0, false, '/', Start, Place(false, false))
  {
    var p := Place(false, false);
    assert PosixRead("^^", 0, false, '/', Start, p) == Ok(Read(LineStart, 1, Caret, p));
    assert !Clean("^^", 1, false, '/', Caret, p);
  }

  lemma DollarBar()
    ensures !Clean("a$\\|b", 1, false, '|', Middle, Place(false, false))
  {
    assert WrongEnd("a$\\|b", 1, false, '|');
  }

  lemma StarQuestion()
    ensures !Clean("a*?", 1, true, '/', Middle, Place(false, false))
  {
    assert PosixRead("a*?", 1, true, '/', Middle, Place(false, false)) ==
      Ok(Read(Repeat('*'), 2, Middle, Place(true, false)));
    assert !Clean("a*?", 2, true, '/', Middle, Place(true, false));
  }

  lemma BraceLetter()
    ensures !Clean("a{x", 1, true, '/', Middle, Place(false, false))
  {
    var q := Place(false, true);
    assert PosixRead("a{x", 1, true, '/', Middle, Place(false, false)) == Ok(Read(IntervalOpen, 2, Middle, q));
    assert PosixRead("a{x", 2, true, '/', Middle, q) == Ok(Read(Lit('x'), 3, Middle, q));
    assert ReadPosix("a{x", 3, true, '/', Middle, q) == Ok([]);
    assert ReadPosix("a{x", 2, true, '/', Middle, q) == Ok([Lit('x')] + []);
  }
}
