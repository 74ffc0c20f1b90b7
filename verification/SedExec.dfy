/** sed's executor (shell/sed/sed.go): the flat command list, one input line after another.

    Regular expressions, replacement templates and files stay abstract: an environment says what matches, what
    a match is replaced by, and which files can be read and written. */
module SedExec {
  import opened Wrappers
  import opened SedInput
  import opened SedRange
  import opened SedParse
  import Terminal

  /** One match: its place in the text and its groups. */
  datatype Match = Match(start: nat, end: nat, groups: seq<(int, int)>)

  datatype Env = Env(find: (Pattern, string) -> seq<Match>, expand: (string, string, Match) -> string, quiet: bool,
                     readFile: string -> Option<string>, canWrite: string -> bool)
  {
    /** Matches come in order and do not overlap. */
    ghost predicate Valid() {
      forall re, s :: InOrder(find(re, s), 0, |s|)
    }
  }

  predicate InOrder(ms: seq<Match>, from: nat, to: nat)
    decreases |ms|
  {
    if ms == [] then from <= to
    else from <= ms[0].start <= ms[0].end && InOrder(ms[1..], ms[0].end, to)
  }

  /** The program's and the run's state: the lines not read yet, the pattern and hold spaces, what is queued
      for the cycle's end, what has been written, each command's range and the files written. */
  datatype State = State(
    input: seq<Record>, line: nat, ps: string, nl: bool, replaced: bool, appendQ: seq<string>, out: Written,
    hold: string, lastRx: Option<Pattern>, flags: seq<Flag>, files: map<string, string>, code: nat)
  {
    predicate LastLine() {
      input == []
    }

    function Seen(re1: bool, re2: bool): Seen {
      SedRange.Seen(line, LastLine(), re1, re2)
    }

    function Write(s: string): State {
      this.(out := out.Write(s))
    }

    function Print(s: string, nl: bool): State {
      this.(out := out.Line(s, nl))
    }

    /** The next line becomes text, which is what read returns when there is one. */
    function Read(text: string, nl: bool): State
      requires input != []
    {
      this.(input := input[1..], line := line + 1, ps := text, nl := nl)
    }
  }

  datatype Action = End | Delete | Restart | Quit | QuitSilent

  datatype Next = Go(pc: nat) | Stop(act: Action) | Fail

  function FlushAppends(st: State): (r: State)
    ensures r == st.(out := r.out, appendQ := [])
    decreases |st.appendQ|
  {
    if st.appendQ == [] then st
    else FlushAppends(st.(out := st.out.Write(st.appendQ[0]), appendQ := st.appendQ[1..]))
  }

  function Autoprint(env: Env, st: State): State {
    if env.quiet then st else st.Print(st.ps, st.nl)
  }

  /** The expression re stands for, which becomes the last used. */
  function Resolve(re: Pattern, st: State): Option<Pattern> {
    if re == "" then st.lastRx else Some(re)
  }

  // ---- addresses ----

  function MatchRegex(env: Env, re: Pattern, st: State): Option<(bool, State)> {
    match Resolve(re, st)
    case None => None
    case Some(p) => Some((env.find(p, st.ps) != [], st.(lastRx := Some(p))))
  }

  function MatchAddress(env: Env, a: Address, re: Pattern, st: State): Option<(bool, State)> {
    if a.Regex? then MatchRegex(env, re, st) else Some((MatchOne(a, st.Seen(false, false), false), st))
  }

  ghost predicate FlagsValid(cmds: seq<Command>, flags: seq<Flag>) {
    |flags| == |cmds| && forall i :: 0 <= i < |cmds| ==> FlagValid(cmds[i].a2, flags[i])
  }

  /** Whether command i applies to the current line; None is a missing last regular expression. */
  function Selected(env: Env, cmds: seq<Command>, i: nat, st: State): (r: Option<(bool, State)>)
    requires i < |cmds| && FlagsValid(cmds, st.flags)
    ensures r.Some? ==> FlagsValid(cmds, r.value.1.flags)
    ensures r.Some? ==> r.value.1 == st.(lastRx := r.value.1.lastRx, flags := r.value.1.flags)
  {
    var c, f := cmds[i], st.flags[i];
    if c.a1.NoAddress? then Some((true, st))
    else if c.a2.NoAddress? then MatchAddress(env, c.a1, c.re1, st)
    else
      var m := if f.active then (if c.a2.Regex? then MatchRegex(env, c.re2, st) else Some((false, st)))
               else MatchAddress(env, c.a1, c.re1, st);
      match m
      case None => None
      case Some((ok, st')) =>
        var (sel, f') := Select(c.a1, c.a2, f, st.Seen(ok, ok));
        Some((sel, st'.(flags := st'.flags[i := f'])))
  }

  // ---- commands ----

  function WriteFile(env: Env, name: string, s: string, st: State): (r: Option<State>)
    ensures r.Some? ==> r.value == st.(files := r.value.files)
  {
    if name in st.files then Some(st.(files := st.files[name := st.files[name] + s]))
    else if env.canWrite(name) then Some(st.(files := st.files[name := s]))
    else None
  }

  function NewlineIn(s: string): Option<nat> {
    var i := NewlineAt(s, 0);
    if i < |s| then Some(i) else None
  }

  /** The text from prev on with the matches numbered from k replaced: the nth, and with g all after it. */
  function Replaced(env: Env, sub: Substitution, ps: string, ms: seq<Match>, k: nat, prev: nat): string
    requires InOrder(ms, prev, |ps|)
    decreases |ms|
  {
    if ms == [] then ps[prev..]
    else
      InOrderBound(ms[1..], ms[0].end, |ps|);
      if k < sub.nth then
        InOrderFrom(ms[1..], ms[0].end, prev, |ps|);
        Replaced(env, sub, ps, ms[1..], k + 1, prev)
      else if k > sub.nth && !sub.global then ps[prev..]
      else ps[prev..ms[0].start] + env.expand(sub.repl, ps, ms[0]) + Replaced(env, sub, ps, ms[1..], k + 1, ms[0].end)
  }

  lemma {:induction false} InOrderBound(ms: seq<Match>, from: nat, to: nat)
    requires InOrder(ms, from, to)
    ensures from <= to
    decreases |ms|
  {
    if ms != [] {
      InOrderBound(ms[1..], ms[0].end, to);
    }
  }

  lemma InOrderFrom(ms: seq<Match>, from: nat, from': nat, to: nat)
    requires InOrder(ms, from, to) && from' <= from
    ensures InOrder(ms, from', to)
  {
    InOrderBound(ms, from, to);
  }

  /** One match on. */
  lemma ReplacedNext(env: Env, sub: Substitution, ps: string, ms: seq<Match>, k: nat, prev: nat)
    requires InOrder(ms, prev, |ps|) && ms != []
    ensures prev <= ms[0].start <= ms[0].end <= |ps| && InOrder(ms[1..], ms[0].end, |ps|)
      && InOrder(ms[1..], prev, |ps|)
    ensures k < sub.nth ==> Replaced(env, sub, ps, ms, k, prev) == Replaced(env, sub, ps, ms[1..], k + 1, prev)
    ensures k > sub.nth && !sub.global ==> Replaced(env, sub, ps, ms, k, prev) == ps[prev..]
    ensures k == sub.nth || (k > sub.nth && sub.global) ==>
      Replaced(env, sub, ps, ms, k, prev) ==
      ps[prev..ms[0].start] + env.expand(sub.repl, ps, ms[0]) + Replaced(env, sub, ps, ms[1..], k + 1, ms[0].end)
  {
    InOrderBound(ms[1..], ms[0].end, |ps|);
    InOrderFrom(ms[1..], ms[0].end, prev, |ps|);
  }

  lemma ReplacedNone(env: Env, sub: Substitution, ps: string, k: nat, prev: nat)
    requires prev <= |ps|
    ensures InOrder([], prev, |ps|) && Replaced(env, sub, ps, [], k, prev) == ps[prev..]
  {
  }

  /** substitute's loop over the matches. */
  method ReplaceMatches(env: Env, sub: Substitution, ps: string, ms: seq<Match>) returns (b: string)
    requires InOrder(ms, 0, |ps|)
    ensures b == Replaced(env, sub, ps, ms, 1, 0)
  {
    hide Replaced, InOrder;
    b := "";
    var prev: nat := 0;
    assert ms[0..] == ms;
    InOrderBound(ms, 0, |ps|);
    for i := 0 to |ms|
      invariant prev <= |ps| && InOrder(ms[i..], prev, |ps|)
      invariant b + Replaced(env, sub, ps, ms[i..], i + 1, prev) == Replaced(env, sub, ps, ms, 1, 0)
    {
      ghost var rest := ms[i + 1..];
      assert ms[i..][0] == ms[i] && ms[i..][1..] == rest;
      ReplacedNext(env, sub, ps, ms[i..], i + 1, prev);
      if i + 1 < sub.nth {
        continue;
      }
      if i + 1 > sub.nth && !sub.global {
        b := b + ps[prev..];
        return;
      }
      var piece := ps[prev..ms[i].start] + env.expand(sub.repl, ps, ms[i]);
      Assoc(b, piece, Replaced(env, sub, ps, rest, i + 2, ms[i].end));
      b := b + piece;
      prev := ms[i].end;
    }
    assert ms[|ms|..] == [];
    ReplacedNone(env, sub, ps, |ms| + 1, prev);
    b := b + ps[prev..];
  }

  /** Without g only the nth match is replaced, and the text around it stays. */
  lemma {:induction false} ReplacesTheNth(env: Env, sub: Substitution, ps: string, ms: seq<Match>, k: nat, prev: nat)
    requires InOrder(ms, prev, |ps|) && !sub.global && k <= sub.nth < k + |ms|
    ensures prev <= ms[sub.nth - k].start <= ms[sub.nth - k].end <= |ps|
    ensures var m := ms[sub.nth - k];
      Replaced(env, sub, ps, ms, k, prev) == ps[prev..m.start] + env.expand(sub.repl, ps, m) + ps[m.end..]
    decreases |ms|
  {
    InOrderBound(ms[1..], ms[0].end, |ps|);
    if k < sub.nth {
      InOrderFrom(ms[1..], ms[0].end, prev, |ps|);
      ReplacesTheNth(env, sub, ps, ms[1..], k + 1, prev);
    }
  }

  lemma {:induction false} InOrderInRange(ms: seq<Match>, from: nat, to: nat, i: nat)
    requires InOrder(ms, from, to) && i < |ms|
    ensures from <= ms[i].start <= ms[i].end <= to
    decreases |ms|
  {
    InOrderBound(ms[1..], ms[0].end, to);
    if i > 0 {
      InOrderInRange(ms[1..], ms[0].end, to, i - 1);
    }
  }

  /** Replacing each match by itself, as & does, leaves the text as it was. */
  lemma {:induction false} ReplacingByItself(env: Env, sub: Substitution, ps: string, ms: seq<Match>, k: nat, prev: nat)
    requires InOrder(ms, prev, |ps|)
    requires forall i :: 0 <= i < |ms| ==> ms[i].start <= ms[i].end <= |ps|
    requires forall i :: 0 <= i < |ms| ==> env.expand(sub.repl, ps, ms[i]) == ps[ms[i].start..ms[i].end]
    ensures prev <= |ps| && Replaced(env, sub, ps, ms, k, prev) == ps[prev..]
    decreases |ms|
  {
    InOrderBound(ms, prev, |ps|);
    if ms != [] {
      InOrderBound(ms[1..], ms[0].end, |ps|);
      InOrderFrom(ms[1..], ms[0].end, prev, |ps|);
      if k < sub.nth {
        ReplacingByItself(env, sub, ps, ms[1..], k + 1, prev);
      } else {
        ReplacingByItself(env, sub, ps, ms[1..], k + 1, ms[0].end);
        assert ps[prev..] == ps[prev..ms[0].start] + ps[ms[0].start..ms[0].end] + ps[ms[0].end..];
      }
    }
  }

  /** s: None is a missing last regular expression or a file that cannot be written. */
  function Substitute(env: Env, sub: Substitution, st: State): (r: Option<State>)
    requires env.Valid()
    ensures r.Some? ==> r.value.input == st.input && r.value.line == st.line && r.value.flags == st.flags
  {
    match Resolve(sub.re, st)
    case None => None
    case Some(p) =>
      var st := st.(lastRx := Some(p));
      var ms := env.find(p, st.ps);
      if |ms| < sub.nth then Some(st)
      else
        var st := st.(ps := Replaced(env, sub, st.ps, ms, 1, 0), replaced := true);
        var st := if sub.show then st.Print(st.ps, st.nl) else st;
        if sub.wfile != "" then WriteFile(env, sub.wfile, st.ps + "\n", st) else Some(st)
  }

  function Translit(m: map<char, char>, s: string): (r: string)
    ensures |r| == |s| && forall i :: 0 <= i < |s| ==> r[i] == if s[i] in m then m[s[i]] else s[i]
  {
    if s == "" then "" else [if s[0] in m then m[s[0]] else s[0]] + Translit(m, s[1..])
  }

  /** Commands that only change the state; None is an error. */
  function Simple(env: Env, c: Command, st: State): (r: Option<State>)
    requires env.Valid()
    ensures r.Some? ==> r.value.input == st.input && r.value.line == st.line && r.value.flags == st.flags
  {
    match c.name
    case '=' => Some(st.Write(Terminal.Itoa(st.line) + "\n"))
    case 'a' => Some(st.(appendQ := st.appendQ + [c.text + "\n"]))
    case 'i' => Some(st.Write(c.text + "\n"))
    case 'g' => Some(st.(ps := st.hold))
    case 'G' => Some(st.(ps := st.ps + "\n" + st.hold))
    case 'h' => Some(st.(hold := st.ps))
    case 'H' => Some(st.(hold := st.hold + "\n" + st.ps))
    case 'x' => Some(st.(ps := st.hold, hold := st.ps))
    case 'z' => Some(st.(ps := ""))
    case 'p' => Some(st.Print(st.ps, st.nl))
    case 'P' => Some(match NewlineIn(st.ps) case Some(i) => st.Print(st.ps[..i], true)
      case None => st.Print(st.ps, true))
    case 'r' =>
      Some(match env.readFile(c.text)
           case Some(s) =>
             if s == "" then st
             else st.(appendQ := st.appendQ + [if s[|s| - 1] == '\n' then s else s + "\n"])
           case None => st)
    case 'w' => WriteFile(env, c.text, st.ps + "\n", st)
    case 's' => Substitute(env, c.sub, st)
    case 'y' => Some(st.(ps := Translit(c.ymap, st.ps)))
    case _ => Some(st)
  }

  /** Command i, which applies to the current line. */
  function Do(env: Env, cmds: seq<Command>, i: nat, st: State): (r: (Next, State))
    requires i < |cmds| && |st.flags| == |cmds| && env.Valid()
    ensures r.1.flags == st.flags
  {
    var c := cmds[i];
    match c.name
    case 'c' =>
      (Stop(Delete), if c.a2.NoAddress? || c.negate || !st.flags[i].active then st.Write(c.text + "\n") else st)
    case 'd' => (Stop(Delete), st)
    case 'D' =>
      (match NewlineIn(st.ps)
       case None => (Stop(Delete), st)
       case Some(k) => (Stop(Restart), FlushAppends(st.(ps := st.ps[k + 1..]))))
    case 'n' =>
      if st.LastLine() then (Stop(End), st)
      else
        var st := FlushAppends(Autoprint(env, st));
        (Go(i + 1), st.Read(st.input[0].text, st.input[0].nl))
    case 'N' =>
      if st.LastLine() then (Stop(End), st)
      else
        var st := FlushAppends(st);
        (Go(i + 1), st.Read(st.ps + "\n" + st.input[0].text, st.input[0].nl))
    case 'q' => (Stop(Quit), st.(code := c.code))
    case 'Q' => (Stop(QuitSilent), st.(code := c.code))
    case 'b' => (Go(c.block + 1), st)
    case 't' => if st.replaced then (Go(c.block + 1), st.(replaced := false)) else (Go(i + 1), st)
    case 'T' => if !st.replaced then (Go(c.block + 1), st) else (Go(i + 1), st.(replaced := false))
    case _ =>
      match Simple(env, c, st)
      case None => (Fail, st)
      case Some(st') => (Go(i + 1), st')
  }

  /** One turn of exec's loop. */
  function Turn(env: Env, cmds: seq<Command>, pc: nat, st: State): (Next, State)
    requires pc < |cmds| && FlagsValid(cmds, st.flags) && env.Valid()
  {
    var c := cmds[pc];
    if c.name == '}' || c.name == ':' then (Go(pc + 1), st)
    else
      match Selected(env, cmds, pc, st)
      case None => (Fail, st)
      case Some((sel, st')) =>
        if sel == c.negate then (Go(if c.name == '{' then c.block + 1 else pc + 1), st')
        else Do(env, cmds, pc, st')
  }

  lemma TurnKeepsFlags(env: Env, cmds: seq<Command>, pc: nat, st: State)
    requires pc < |cmds| && FlagsValid(cmds, st.flags) && env.Valid()
    ensures FlagsValid(cmds, Turn(env, cmds, pc, st).1.flags)
  {
    hide Do;
  }

  /** exec's loop from pc, for at most fuel commands: None when they were not enough. */
  function Exec(env: Env, cmds: seq<Command>, pc: nat, st: State, fuel: nat): Option<(Next, State)>
    requires FlagsValid(cmds, st.flags) && env.Valid()
    decreases fuel
  {
    if pc >= |cmds| then Some((Stop(End), st))
    else if fuel == 0 then None
    else
      TurnKeepsFlags(env, cmds, pc, st);
      var (next, st') := Turn(env, cmds, pc, st);
      if next.Go? then Exec(env, cmds, next.pc, st', fuel - 1) else Some((next, st'))
  }

  /** The executor of one program over one input. */
  class Executor {
    const env: Env
    const cmds: seq<Command>
    var st: State

    constructor (env: Env, cmds: seq<Command>, st: State)
      requires env.Valid() && FlagsValid(cmds, st.flags)
      ensures this.env == env && this.cmds == cmds && this.st == st
    {
      this.env, this.cmds, this.st := env, cmds, st;
    }

    method RunScript(fuel: nat) returns (r: Option<Next>)
      requires env.Valid() && FlagsValid(cmds, st.flags)
      modifies this
      ensures FlagsValid(cmds, st.flags)
      ensures match Exec(env, cmds, 0, old(st), fuel)
        case None => r == None
        case Some((next, st')) => r == Some(next) && st == st'
    {
      hide Turn, FlagsValid;
      var pc, left := 0, fuel;
      while pc < |cmds|
        invariant FlagsValid(cmds, st.flags)
        invariant Exec(env, cmds, 0, old(st), fuel) == Exec(env, cmds, pc, st, left)
        decreases left
      {
        if left == 0 {
          return None;
        }
        TurnKeepsFlags(env, cmds, pc, st);
        var (next, st') := Turn(env, cmds, pc, st);
        st := st';
        match next {
          case Go(pc') => pc, left := pc', left - 1;
          case _ => return Some(next);
        }
      }
      return Some(Stop(End));
    }

    /** run: one cycle after another until the input ends or the script quits. */
    method RunInput(fuel: nat) returns (r: Option<Ended>)
      requires env.Valid() && FlagsValid(cmds, st.flags)
      modifies this
      ensures r == Run(env, cmds, old(st), false, fuel)
      ensures r.Some? ==> st == r.value.st
    {
      hide Exec, FlagsValid, Autoprint;
      var restart, left := false, fuel;
      while restart || st.input != []
        invariant FlagsValid(cmds, st.flags)
        invariant Run(env, cmds, old(st), false, fuel) == Run(env, cmds, st, restart, left)
        decreases left
      {
        if left == 0 {
          return None;
        }
        if !restart {
          st := st.Read(st.input[0].text, st.input[0].nl).(replaced := false);
        }
        ExecKeepsFlags(env, cmds, 0, st, left);
        AutoprintKeepsFlags(env);
        var next := RunScript(left);
        if next.None? {
          return None;
        }
        if !next.value.Stop? {
          return Some(Ended(st, false, true));
        }
        match next.value.act {
          case End => st := FlushAppends(Autoprint(env, st));
          case Delete => st := FlushAppends(st);
          case Restart => st := FlushAppends(st);
          case Quit =>
            st := FlushAppends(Autoprint(env, st));
            return Some(Ended(st, true, false));
          case QuitSilent =>
            return Some(Ended(st, true, false));
        }
        restart, left := next.value.act == Restart, left - 1;
      }
      return Some(Ended(st, false, false));
    }
  }

  lemma AutoprintKeepsFlags(env: Env)
    ensures forall st: State :: Autoprint(env, st).flags == st.flags
  {
  }

  // ---- nested blocks ----

  datatype Node = Leaf(at: nat) | Block(at: nat, body: seq<Node>)

  /** Every command of the node is one of the first n. */
  ghost predicate Within(node: Node, n: nat) {
    match node
    case Leaf(i) => i < n
    case Block(i, body) => i < n && forall b :: b in body ==> Within(b, n)
  }

  /** The commands from i to the } or the end of the block they are in, nested as the script nests them. */
  function Nodes(cs: seq<Command>, i: nat): (r: (seq<Node>, nat))
    requires i <= |cs|
    ensures i <= r.1 <= |cs| && (r.1 < |cs| ==> cs[r.1].name == '}')
    ensures forall b :: b in r.0 ==> Within(b, |cs|)
    decreases |cs| - i
  {
    if i == |cs| || cs[i].name == '}' then ([], i)
    else if cs[i].name == '{' then
      var (body, j) := Nodes(cs, i + 1);
      if j == |cs| then ([Block(i, body)], j)
      else
        var (rest, k) := Nodes(cs, j + 1);
        ([Block(i, body)] + rest, k)
    else
      var (rest, k) := Nodes(cs, i + 1);
      ([Leaf(i)] + rest, k)
  }

  /** The nested blocks interpreted one after another: Go means all of them were gone through. A branch
      without a label ends the script. */
  function ExecNodes(env: Env, cmds: seq<Command>, nodes: seq<Node>, st: State): (r: (Next, State))
    requires FlagsValid(cmds, st.flags) && env.Valid() && forall b :: b in nodes ==> Within(b, |cmds|)
    ensures FlagsValid(cmds, r.1.flags)
    decreases nodes
  {
    if nodes == [] then (Go(0), st)
    else
      var (next, st') := ExecNode(env, cmds, nodes[0], st);
      if next.Go? then ExecNodes(env, cmds, nodes[1..], st') else (next, st')
  }

  function ExecNode(env: Env, cmds: seq<Command>, node: Node, st: State): (r: (Next, State))
    requires FlagsValid(cmds, st.flags) && env.Valid() && Within(node, |cmds|)
    ensures FlagsValid(cmds, r.1.flags)
    decreases node
  {
    match node
    case Leaf(i) =>
      TurnKeepsFlags(env, cmds, i, st);
      var (next, st') := Turn(env, cmds, i, st);
      (if next.Go? && next.pc != i + 1 then Stop(End) else next, st')
    case Block(i, body) =>
      match Selected(env, cmds, i, st)
      case None => (Fail, st)
      case Some((sel, st')) => if sel == cmds[i].negate then (Go(0), st') else ExecNodes(env, cmds, body, st')
  }

  /** Every { points at its }, and branches only to the end. */
  ghost predicate BlocksOnly(cs: seq<Command>) {
    && (forall k :: 0 <= k < |cs| && cs[k].name == '{' ==> CloseOf(cs, k + 1, 0) == Some(cs[k].block))
    && (forall k :: 0 <= k < |cs| && IsBranch(cs[k]) ==> cs[k].block == |cs|)
  }

  lemma {:induction false} NodesEnd(cs: seq<Command>, i: nat)
    requires i <= |cs|
    ensures Nodes(cs, i).1 == match CloseOf(cs, i, 0) case Some(j) => j case None => |cs|
    decreases |cs| - i
  {
    if i < |cs| && cs[i].name != '}' {
      NodesEnd(cs, i + 1);
      if cs[i].name == '{' {
        CloseInside(cs, i + 1, 0);
        if Nodes(cs, i + 1).1 < |cs| {
          NodesEnd(cs, Nodes(cs, i + 1).1 + 1);
        }
      }
    }
  }

  /** What closes the outer block is looked for after the inner one's }. */
  lemma {:induction false} CloseInside(cs: seq<Command>, i: nat, d: nat)
    requires i <= |cs|
    ensures CloseOf(cs, i, d + 1) == match CloseOf(cs, i, d) case Some(j) => CloseOf(cs, j + 1, 0) case None => None
    decreases |cs| - i
  {
    if i < |cs| {
      if cs[i].name == '{' {
        CloseInside(cs, i + 1, d + 1);
      } else if cs[i].name == '}' {
        if d > 0 { CloseInside(cs, i + 1, d - 1); }
      } else {
        CloseInside(cs, i + 1, d);
      }
    }
  }

  lemma {:induction false} MoreFuel(env: Env, cmds: seq<Command>, pc: nat, st: State, fuel: nat, more: nat)
    requires FlagsValid(cmds, st.flags) && env.Valid() && fuel <= more
    ensures Exec(env, cmds, pc, st, fuel).Some? ==> Exec(env, cmds, pc, st, more) == Exec(env, cmds, pc, st, fuel)
    decreases fuel
  {
    hide Turn, FlagsValid;
    if pc < |cmds| && fuel > 0 {
      TurnKeepsFlags(env, cmds, pc, st);
      var (next, st') := Turn(env, cmds, pc, st);
      if next.Go? {
        MoreFuel(env, cmds, next.pc, st', fuel - 1, more - 1);
      }
    }
  }

  /** Without backward branches each turn goes forward. */
  lemma TurnForward(env: Env, cmds: seq<Command>, pc: nat, st: State)
    requires pc < |cmds| && FlagsValid(cmds, st.flags) && env.Valid() && BlocksOnly(cmds)
    ensures var next := Turn(env, cmds, pc, st).0; next.Go? ==> next.pc > pc
  {
    hide Selected, Simple, FlushAppends, FlagsValid, Autoprint;
  }

  /** The rest of the script, run to its end. */
  function ExecAll(env: Env, cmds: seq<Command>, pc: nat, st: State): Option<(Next, State)>
    requires FlagsValid(cmds, st.flags) && env.Valid()
  {
    Exec(env, cmds, pc, st, if pc < |cmds| then |cmds| - pc else 0)
  }

  lemma {:induction false} ExecAllEnds(env: Env, cmds: seq<Command>, pc: nat, st: State)
    requires FlagsValid(cmds, st.flags) && env.Valid() && BlocksOnly(cmds)
    ensures ExecAll(env, cmds, pc, st).Some?
    ensures pc < |cmds| ==>
      var (next, st') := Turn(env, cmds, pc, st);
      FlagsValid(cmds, st'.flags) &&
      ExecAll(env, cmds, pc, st) == if next.Go? then ExecAll(env, cmds, next.pc, st') else Some((next, st'))
    decreases |cmds| - pc
  {
    hide Turn, FlagsValid, BlocksOnly;
    if pc < |cmds| {
      TurnKeepsFlags(env, cmds, pc, st);
      TurnForward(env, cmds, pc, st);
      var (next, st') := Turn(env, cmds, pc, st);
      if next.Go? {
        ExecAllEnds(env, cmds, next.pc, st');
        MoreFuel(env, cmds, next.pc, st', if next.pc < |cmds| then |cmds| - next.pc else 0, |cmds| - pc - 1);
      }
    }
  }

  /** A { that is not taken goes on after its }, and one that is taken goes on inside. */
  lemma TurnAtBlock(env: Env, cmds: seq<Command>, i: nat, st: State)
    requires i < |cmds| && FlagsValid(cmds, st.flags) && env.Valid() && cmds[i].name == '{'
    ensures Turn(env, cmds, i, st) ==
      match Selected(env, cmds, i, st)
      case None => (Fail, st)
      case Some((sel, st')) => (Go(if sel == cmds[i].negate then cmds[i].block + 1 else i + 1), st')
  {
  }

  lemma TurnAtLeaf(env: Env, cmds: seq<Command>, i: nat, st: State)
    requires i < |cmds| && FlagsValid(cmds, st.flags) && env.Valid() && cmds[i].name != '{' && BlocksOnly(cmds)
    ensures var next := Turn(env, cmds, i, st).0; next.Go? ==> next.pc == i + 1 || next.pc == |cmds| + 1
    ensures cmds[i].name == '}' ==> Turn(env, cmds, i, st) == (Go(i + 1), st)
  {
    hide Selected, Simple, FlushAppends, FlagsValid, Autoprint;
  }

  /** The flat list from i does what the nested blocks from i do, and goes on where they end. */
  lemma {:induction false} FlatIsNested(env: Env, cmds: seq<Command>, i: nat, st: State)
    requires i <= |cmds| && FlagsValid(cmds, st.flags) && env.Valid() && BlocksOnly(cmds)
    ensures var (nodes, j) := Nodes(cmds, i);
      var (next, st') := ExecNodes(env, cmds, nodes, st);
      ExecAll(env, cmds, i, st) == if next.Go? then ExecAll(env, cmds, j, st') else Some((next, st'))
    decreases |cmds| - i, 1
  {
    hide Turn, FlagsValid, Selected, ExecAll, Within;
    if i < |cmds| && cmds[i].name != '}' {
      ExecAllEnds(env, cmds, i, st);
      if cmds[i].name == '{' {
        FlatBlock(env, cmds, i, st);
      } else {
        FlatLeaf(env, cmds, i, st);
      }
    }
  }

  lemma FlatLeaf(env: Env, cmds: seq<Command>, i: nat, st: State)
    requires i < |cmds| && FlagsValid(cmds, st.flags) && env.Valid() && BlocksOnly(cmds)
    requires cmds[i].name != '}' && cmds[i].name != '{'
    ensures var (nodes, j) := Nodes(cmds, i);
      var (next, st') := ExecNodes(env, cmds, nodes, st);
      ExecAll(env, cmds, i, st) == if next.Go? then ExecAll(env, cmds, j, st') else Some((next, st'))
    decreases |cmds| - i, 0
  {
    hide Turn, FlagsValid, Selected, ExecAll, BlocksOnly, Within;
    var (rest, j) := Nodes(cmds, i + 1);
    assert Nodes(cmds, i).0[0] == Leaf(i) && Nodes(cmds, i).0[1..] == rest;
    ExecAllEnds(env, cmds, i, st);
    TurnAtLeaf(env, cmds, i, st);
    var (next, st') := Turn(env, cmds, i, st);
    if next.Go? && next.pc == i + 1 {
      FlatIsNested(env, cmds, i + 1, st');
    } else if next.Go? {
      PastTheEnd(env, cmds, next.pc, st');
    }
  }

  lemma PastTheEnd(env: Env, cmds: seq<Command>, pc: nat, st: State)
    requires FlagsValid(cmds, st.flags) && env.Valid() && pc >= |cmds|
    ensures ExecAll(env, cmds, pc, st) == Some((Stop(End), st))
  {
  }

  lemma NodesAtBlock(cmds: seq<Command>, i: nat)
    requires i < |cmds| && BlocksOnly(cmds) && cmds[i].name == '{'
    ensures Nodes(cmds, i + 1).1 == cmds[i].block < |cmds|
    ensures var (rest, k) := Nodes(cmds, cmds[i].block + 1);
      Nodes(cmds, i) == ([Block(i, Nodes(cmds, i + 1).0)] + rest, k)
  {
    NodesEnd(cmds, i + 1);
  }

  /** The nodes after one that was gone through. */
  function ThenNodes(env: Env, cmds: seq<Command>, r: (Next, State), rest: seq<Node>): (Next, State)
    requires FlagsValid(cmds, r.1.flags) && env.Valid() && forall b :: b in rest ==> Within(b, |cmds|)
  {
    if r.0.Go? then ExecNodes(env, cmds, rest, r.1) else r
  }

  /** What a block and the nodes after it do. */
  lemma ExecBlock(env: Env, cmds: seq<Command>, i: nat, body: seq<Node>, rest: seq<Node>, st: State)
    requires FlagsValid(cmds, st.flags) && env.Valid() && i < |cmds|
    requires (forall b :: b in body ==> Within(b, |cmds|)) && forall b :: b in rest ==> Within(b, |cmds|)
    ensures forall b :: b in [Block(i, body)] + rest ==> Within(b, |cmds|)
    ensures ExecNodes(env, cmds, [Block(i, body)] + rest, st) ==
      ThenNodes(env, cmds, ExecNode(env, cmds, Block(i, body), st), rest)
  {
    hide FlagsValid, Selected;
    var nodes := [Block(i, body)] + rest;
    assert nodes[0] == Block(i, body) && nodes[1..] == rest;
  }

  lemma FlatBlock(env: Env, cmds: seq<Command>, i: nat, st: State)
    requires i < |cmds| && FlagsValid(cmds, st.flags) && env.Valid() && BlocksOnly(cmds) && cmds[i].name == '{'
    ensures var (nodes, j) := Nodes(cmds, i);
      var (next, st') := ExecNodes(env, cmds, nodes, st);
      ExecAll(env, cmds, i, st) == if next.Go? then ExecAll(env, cmds, j, st') else Some((next, st'))
    decreases |cmds| - i, 0
  {
    hide Turn, FlagsValid, Selected, ExecAll, Within, Nodes, ExecNodes;
    var (body, j) := Nodes(cmds, i + 1);
    NodesAtBlock(cmds, i);
    var (rest, k) := Nodes(cmds, j + 1);
    ExecBlock(env, cmds, i, body, rest, st);
    ExecAllEnds(env, cmds, i, st);
    TurnAtBlock(env, cmds, i, st);
    var selected := Selected(env, cmds, i, st);
    if selected.Some? {
      var (sel, st1) := selected.value;
      if sel == cmds[i].negate {
        FlatIsNested(env, cmds, j + 1, st1);
      } else {
        FlatBody(env, cmds, i + 1, st1);
        var (next, st2) := ExecNodes(env, cmds, body, st1);
        if next.Go? {
          FlatIsNested(env, cmds, j + 1, st2);
        }
      }
    }
  }

  /** The inside of a block, gone through, goes on after the block's }. */
  lemma FlatBody(env: Env, cmds: seq<Command>, i: nat, st: State)
    requires i <= |cmds| && FlagsValid(cmds, st.flags) && env.Valid() && BlocksOnly(cmds)
    requires Nodes(cmds, i).1 < |cmds|
    ensures var (nodes, j) := Nodes(cmds, i);
      var (next, st') := ExecNodes(env, cmds, nodes, st);
      ExecAll(env, cmds, i, st) == if next.Go? then ExecAll(env, cmds, j + 1, st') else Some((next, st'))
    decreases |cmds| - i, 2
  {
    hide Turn, FlagsValid, Selected, ExecAll, Within, Nodes, ExecNodes;
    var (nodes, j) := Nodes(cmds, i);
    FlatIsNested(env, cmds, i, st);
    var (next, st') := ExecNodes(env, cmds, nodes, st);
    if next.Go? {
      ExecAllEnds(env, cmds, j, st');
      TurnAtLeaf(env, cmds, j, st');
    }
  }

  /** A script that parse accepts and that has no labelled branches does, over the flat list, what its nested
      blocks do. */
  lemma FlatScriptIsNested(env: Env, cs: seq<Command>, cmds: seq<Command>, st: State)
    requires Acceptable(cs) && Flattened(cs, cmds) && FlagsValid(cmds, st.flags) && env.Valid()
    requires forall k :: 0 <= k < |cs| && IsBranch(cs[k]) ==> cs[k].text == ""
    ensures var (next, st') := ExecNodes(env, cmds, Nodes(cmds, 0).0, st);
      Exec(env, cmds, 0, st, |cmds|) == Some((if next.Go? then Stop(End) else next, st'))
  {
    hide *;
    FlattenedNests(cs, cmds);
    FlatIsNested(env, cmds, 0, st);
    WholeScript(env, cmds, st);
    PastTheEnd(env, cmds, |cmds|, ExecNodes(env, cmds, Nodes(cmds, 0).0, st).1);
  }

  /** The parsed list has its blocks in place, and its nodes are all of it. */
  lemma FlattenedNests(cs: seq<Command>, cmds: seq<Command>)
    requires Acceptable(cs) && Flattened(cs, cmds)
    requires forall k :: 0 <= k < |cs| && IsBranch(cs[k]) ==> cs[k].text == ""
    ensures BlocksOnly(cmds) && Nodes(cmds, 0).1 == |cmds|
  {
    hide CloseOf, Balanced, Nodes, Defect, LabelsDistinct, LabelsKnown;
    SameNames(cs, cmds, 0, 0);
    forall k | 0 <= k < |cs| && cs[k].name == '{'
      ensures CloseOf(cmds, k + 1, 0) == Some(cmds[k].block)
    {
      SameNames(cs, cmds, k + 1, 0);
    }
    NodesEnd(cmds, 0);
    NoStrayClose(cmds, 0, 0);
  }

  lemma WholeScript(env: Env, cmds: seq<Command>, st: State)
    requires FlagsValid(cmds, st.flags) && env.Valid()
    ensures ExecAll(env, cmds, 0, st) == Exec(env, cmds, 0, st, |cmds|)
  {
    hide Exec;
  }

  lemma {:induction false} SameNames(cs: seq<Command>, cmds: seq<Command>, i: nat, d: nat)
    requires |cs| == |cmds| && i <= |cs| && forall k :: 0 <= k < |cs| ==> cmds[k].name == cs[k].name
    ensures CloseOf(cs, i, d) == CloseOf(cmds, i, d)
    ensures Balanced(cs, i, d) == Balanced(cmds, i, d)
    decreases |cs| - i
  {
    if i < |cs| {
      SameNames(cs, cmds, i + 1, d);
      SameNames(cs, cmds, i + 1, d + 1);
      if d > 0 { SameNames(cs, cmds, i + 1, d - 1); }
    }
  }

  lemma {:induction false} NoStrayClose(cs: seq<Command>, i: nat, d: nat)
    requires i <= |cs| && Balanced(cs, i, d)
    ensures CloseOf(cs, i, d) == None
    decreases |cs| - i
  {
    if i < |cs| {
      if cs[i].name == '{' {
        NoStrayClose(cs, i + 1, d + 1);
      } else if cs[i].name == '}' {
        NoStrayClose(cs, i + 1, d - 1);
      } else {
        NoStrayClose(cs, i + 1, d);
      }
    }
  }

  // ---- whole runs ----

  datatype Ended = Ended(st: State, quit: bool, failed: bool)

  /** run's loop over the cycles: with restart the pattern space is run again without reading. None when the
      fuel was not enough. */
  function Run(env: Env, cmds: seq<Command>, st: State, restart: bool, fuel: nat): Option<Ended>
    requires FlagsValid(cmds, st.flags) && env.Valid()
    decreases fuel
  {
    if !restart && st.input == [] then Some(Ended(st, false, false))
    else if fuel == 0 then None
    else
      var st := if restart then st else st.Read(st.input[0].text, st.input[0].nl).(replaced := false);
      ExecKeepsFlags(env, cmds, 0, st, fuel);
      match Exec(env, cmds, 0, st, fuel)
      case None => None
      case Some((next, st')) =>
        if !next.Stop? then Some(Ended(st', false, true))
        else
          match next.act
          case End => Run(env, cmds, FlushAppends(Autoprint(env, st')), false, fuel - 1)
          case Delete => Run(env, cmds, FlushAppends(st'), false, fuel - 1)
          case Restart => Run(env, cmds, FlushAppends(st'), true, fuel - 1)
          case Quit => Some(Ended(FlushAppends(Autoprint(env, st')), true, false))
          case QuitSilent => Some(Ended(st', true, false))
  }

  lemma {:induction false} ExecKeepsFlags(env: Env, cmds: seq<Command>, pc: nat, st: State, fuel: nat)
    requires FlagsValid(cmds, st.flags) && env.Valid()
    ensures match Exec(env, cmds, pc, st, fuel) case Some((_, st')) => FlagsValid(cmds, st'.flags) case None => true
    decreases fuel
  {
    hide Turn, FlagsValid;
    if pc < |cmds| && fuel > 0 {
      TurnKeepsFlags(env, cmds, pc, st);
      var (next, st') := Turn(env, cmds, pc, st);
      if next.Go? {
        ExecKeepsFlags(env, cmds, next.pc, st', fuel - 1);
      }
    }
  }

  /** An empty script prints every line, and with -n none. */
  lemma {:induction false} EmptyScriptPrints(env: Env, st: State, fuel: nat)
    requires env.Valid() && st.flags == [] && st.appendQ == [] && fuel >= |st.input|
    ensures var r := Run(env, [], st, false, fuel);
      r.Some? && !r.value.quit && !r.value.failed &&
      r.value.st.out == if env.quiet then st.out else PrintAll(st.out, st.input)
    decreases fuel
  {
    if st.input != [] {
      var st1 := st.Read(st.input[0].text, st.input[0].nl).(replaced := false);
      var st2 := Autoprint(env, st1);
      assert Exec(env, [], 0, st1, fuel) == Some((Stop(End), st1));
      assert FlushAppends(st2) == st2;
      EmptyScriptPrints(env, st2, fuel - 1);
    }
  }

  /** The ranges' states before the first line. */
  function Initials(cmds: seq<Command>): (flags: seq<Flag>)
    ensures |flags| == |cmds| && forall i :: 0 <= i < |cmds| ==> flags[i] == Initial(cmds[i].a1)
  {
    if cmds == [] then [] else [Initial(cmds[0].a1)] + Initials(cmds[1..])
  }

  lemma {:induction false} RunKeepsFlags(env: Env, cmds: seq<Command>, st: State, restart: bool, fuel: nat)
    requires FlagsValid(cmds, st.flags) && env.Valid()
    ensures match Run(env, cmds, st, restart, fuel) case Some(e) => FlagsValid(cmds, e.st.flags) case None => true
    decreases fuel
  {
    hide Exec, FlagsValid;
    if (restart || st.input != []) && fuel > 0 {
      var st1 := if restart then st else st.Read(st.input[0].text, st.input[0].nl).(replaced := false);
      ExecKeepsFlags(env, cmds, 0, st1, fuel);
      var r := Exec(env, cmds, 0, st1, fuel);
      if r.Some? && r.value.0.Stop? {
        match r.value.0.act
        case End => RunKeepsFlags(env, cmds, FlushAppends(Autoprint(env, r.value.1)), false, fuel - 1);
        case Delete => RunKeepsFlags(env, cmds, FlushAppends(r.value.1), false, fuel - 1);
        case Restart => RunKeepsFlags(env, cmds, FlushAppends(r.value.1), true, fuel - 1);
        case _ =>
      }
    }
  }

  /** Before the first line every range that is active has a step to divide by exactly when no command has address
      0 with a second one of ~0. */
  lemma InitialsDivide(cmds: seq<Command>)
    ensures FlagsValid(cmds, Initials(cmds)) <==>
      forall i :: 0 <= i < |cmds| ==> !(cmds[i].a1.Zero? && cmds[i].a2.Step? && cmds[i].a2.step == 0)
  {
    if FlagsValid(cmds, Initials(cmds)) {
      assert forall i :: 0 <= i < |cmds| ==> FlagValid(cmds[i].a2, Initials(cmds)[i]);
    }
  }

  /** A program run again, over other input: the ranges, the hold space, the last regular expression and the files
      written are as the last Run left them. */
  function Again(st: State, input: seq<Record>): State {
    Start(input, st.hold, st.flags).(lastRx := st.lastRx, files := st.files)
  }

  /** A program run over one input after another; fuel bounds the turns of each Run. */
  function Runs(env: Env, cmds: seq<Command>, st: State, inputs: seq<seq<Record>>, fuel: nat): (r: Option<State>)
    requires FlagsValid(cmds, st.flags) && env.Valid()
    ensures r.Some? ==> FlagsValid(cmds, r.value.flags)
    decreases |inputs|
  {
    hide FlagsValid, Run;
    if inputs == [] then Some(st)
    else
      var next := Again(st, inputs[0]);
      RunKeepsFlags(env, cmds, next, false, fuel);
      match Run(env, cmds, next, false, fuel)
      case None => None
      case Some(e) => Runs(env, cmds, e.st, inputs[1..], fuel)
  }

  /** However often a script that parse accepts is run, each Run starting with the ranges as the one before left them,
      no range is ever to a multiple of zero. */
  lemma AcceptedDivides(env: Env, cs: seq<Command>, cmds: seq<Command>, inputs: seq<seq<Record>>, fuel: nat)
    requires Acceptable(cs) && Flattened(cs, cmds) && env.Valid()
    ensures FlagsValid(cmds, Initials(cmds))
    ensures match Runs(env, cmds, Start([], "", Initials(cmds)), inputs, fuel)
      case Some(st) => FlagsValid(cmds, st.flags) case None => true
  {
    hide Runs, Balanced, LabelsDistinct, LabelsKnown, Leads, Initials;
    forall i | 0 <= i < |cmds|
      ensures !(cmds[i].a1.Zero? && cmds[i].a2.Step? && cmds[i].a2.step == 0)
    {
      assert Defect(cs[i], i) == None;
    }
    InitialsDivide(cmds);
  }

  function Start(input: seq<Record>, hold: string, flags: seq<Flag>): State {
    State(input, 0, "", false, false, [], Written("", false), hold, None, flags, map[], 0)
  }

  /** An empty script reproduces what it reads, with only the newlines missing between readers added. */
  lemma EmptyScriptReproduces(env: Env, readers: seq<string>, fuel: nat)
    requires env.Valid() && !env.quiet && fuel >= |AllRecords(readers)|
    ensures var r := Run(env, [], Start(AllRecords(readers), "", []), false, fuel);
      r.Some? && r.value.st.out.text == Joined(readers)
  {
    var input := AllRecords(readers);
    EmptyScriptPrints(env, Start(input, "", []), fuel);
    LinesReproduceReaders(readers);
    if input != [] {
      PrintAllText(Written("", false), input);
      assert "" + "" + Terminated(input) == Terminated(input);
    }
  }

  // ---- what every command keeps ----

  /** What is written are whole lines, but for a last one whose newline is still owed; what is queued are
      whole lines; and the lines read and still to read add up to total. */
  ghost predicate Kept(st: State, total: nat) {
    && (!st.out.missingNL ==> st.out.text == "" || EndsLine(st.out.text))
    && (forall i :: 0 <= i < |st.appendQ| ==> EndsLine(st.appendQ[i]))
    && st.line + |st.input| == total
  }

  lemma WriteKeeps(st: State, s: string, total: nat)
    requires Kept(st, total) && EndsLine(s)
    ensures Kept(st.Write(s), total)
  {
  }

  lemma PrintKeeps(st: State, s: string, nl: bool, total: nat)
    requires Kept(st, total)
    ensures Kept(st.Print(s, nl), total)
  {
    if nl {
      var w := st.out.Write(s);
      assert w.Write("\n").text == w.text + "" + "\n";
    }
  }

  lemma {:induction false} FlushKeeps(st: State, total: nat)
    requires Kept(st, total)
    ensures Kept(FlushAppends(st), total)
    decreases |st.appendQ|
  {
    if st.appendQ != [] {
      WriteKeeps(st, st.appendQ[0], total);
      FlushKeeps(st.(out := st.out.Write(st.appendQ[0]), appendQ := st.appendQ[1..]), total);
    }
  }

  lemma SubstituteKeeps(env: Env, sub: Substitution, st: State, total: nat)
    requires env.Valid() && Kept(st, total)
    ensures match Substitute(env, sub, st) case Some(st') => Kept(st', total) case None => true
  {
    hide Replaced;
    var p := Resolve(sub.re, st);
    if p.Some? {
      var st1 := st.(lastRx := p);
      var ms := env.find(p.value, st1.ps);
      if |ms| >= sub.nth {
        var st2 := st1.(ps := Replaced(env, sub, st1.ps, ms, 1, 0), replaced := true);
        PrintKeeps(st2, st2.ps, st2.nl, total);
      }
    }
  }

  lemma SimpleKeeps(env: Env, c: Command, st: State, total: nat)
    requires env.Valid() && Kept(st, total)
    ensures match Simple(env, c, st) case Some(st') => Kept(st', total) case None => true
  {
    hide Kept, Substitute, WriteFile, Translit;
    match c.name
    case '=' => WriteKeeps(st, Terminal.Itoa(st.line) + "\n", total);
    case 'i' => WriteKeeps(st, c.text + "\n", total);
    case 'p' => PrintKeeps(st, st.ps, st.nl, total);
    case 'P' =>
      var i := NewlineIn(st.ps);
      PrintKeeps(st, if i.Some? then st.ps[..i.value] else st.ps, true, total);
    case 's' => SubstituteKeeps(env, c.sub, st, total);
    case 'a' => QueueKeeps(st, c.text + "\n", total);
    case 'r' =>
      var f := env.readFile(c.text);
      if f.Some? && f.value != "" {
        QueueKeeps(st, if EndsLine(f.value) then f.value else f.value + "\n", total);
      }
    case _ => SpacesKeep(env, c, st, total);
  }

  lemma QueueKeeps(st: State, s: string, total: nat)
    requires Kept(st, total) && EndsLine(s)
    ensures Kept(st.(appendQ := st.appendQ + [s]), total)
  {
  }

  lemma SpacesKeep(env: Env, c: Command, st: State, total: nat)
    requires env.Valid() && Kept(st, total) && c.name !in "=ipPsar"
    ensures match Simple(env, c, st) case Some(st') => Kept(st', total) case None => true
  {
    hide Translit;
  }

  lemma DoKeeps(env: Env, cmds: seq<Command>, i: nat, st: State, total: nat)
    requires i < |cmds| && |st.flags| == |cmds| && env.Valid() && Kept(st, total)
    ensures Kept(Do(env, cmds, i, st).1, total)
  {
    hide Kept, Simple, FlushAppends;
    var c := cmds[i];
    match c.name
    case 'c' => WriteKeeps(st, c.text + "\n", total);
    case 'D' =>
      var k := NewlineIn(st.ps);
      if k.Some? {
        PatternKeeps(st, st.ps[k.value + 1..], st.replaced, st.code, total);
        FlushKeeps(st.(ps := st.ps[k.value + 1..]), total);
      }
    case 'n' =>
      if !st.LastLine() {
        PrintKeeps(st, st.ps, st.nl, total);
        FlushKeeps(Autoprint(env, st), total);
        var st1 := FlushAppends(Autoprint(env, st));
        ReadKeeps(st1, st1.input[0].text, total);
      }
    case 'N' =>
      if !st.LastLine() {
        FlushKeeps(st, total);
        var st1 := FlushAppends(st);
        ReadKeeps(st1, st1.ps + "\n" + st1.input[0].text, total);
      }
    case 'q' => PatternKeeps(st, st.ps, st.replaced, c.code, total);
    case 'Q' => PatternKeeps(st, st.ps, st.replaced, c.code, total);
    case 't' => PatternKeeps(st, st.ps, false, st.code, total);
    case 'T' => PatternKeeps(st, st.ps, false, st.code, total);
    case 'd' =>
    case 'b' =>
    case _ => SimpleKeeps(env, c, st, total);
  }

  lemma PatternKeeps(st: State, ps: string, replaced: bool, code: nat, total: nat)
    requires Kept(st, total)
    ensures Kept(st.(ps := ps, replaced := replaced, code := code), total)
    ensures Kept(st.(ps := ps), total) && Kept(st.(replaced := replaced), total) && Kept(st.(code := code), total)
  {
  }

  lemma ReadKeeps(st: State, text: string, total: nat)
    requires Kept(st, total) && st.input != []
    ensures Kept(st.Read(text, st.input[0].nl), total) && Kept(st.Read(text, st.input[0].nl).(replaced := false), total)
  {
  }

  lemma TurnKeeps(env: Env, cmds: seq<Command>, pc: nat, st: State, total: nat)
    requires pc < |cmds| && FlagsValid(cmds, st.flags) && env.Valid() && Kept(st, total)
    ensures Kept(Turn(env, cmds, pc, st).1, total)
  {
    hide Do;
    var r := Selected(env, cmds, pc, st);
    if r.Some? {
      var (sel, st') := r.value;
      assert Kept(st', total);
      DoKeeps(env, cmds, pc, st', total);
    }
  }

  lemma {:induction false} ExecKeeps(env: Env, cmds: seq<Command>, pc: nat, st: State, fuel: nat, total: nat)
    requires FlagsValid(cmds, st.flags) && env.Valid() && Kept(st, total)
    ensures match Exec(env, cmds, pc, st, fuel) case Some((_, st')) => Kept(st', total) case None => true
    decreases fuel
  {
    hide Turn, FlagsValid, Kept;
    if pc < |cmds| && fuel > 0 {
      TurnKeepsFlags(env, cmds, pc, st);
      TurnKeeps(env, cmds, pc, st, total);
      var (next, st') := Turn(env, cmds, pc, st);
      if next.Go? {
        ExecKeeps(env, cmds, next.pc, st', fuel - 1, total);
      }
    }
  }

  /** In every run of every script, the line number counts the lines read, so that $ holds exactly on the
      last, and only the last record written can lack its newline. */
  lemma {:induction false} RunKeeps(env: Env, cmds: seq<Command>, st: State, restart: bool, fuel: nat, total: nat)
    requires FlagsValid(cmds, st.flags) && env.Valid() && Kept(st, total)
    ensures match Run(env, cmds, st, restart, fuel) case Some(e) => Kept(e.st, total) case None => true
    decreases fuel
  {
    hide Exec, FlagsValid, Kept;
    if (restart || st.input != []) && fuel > 0 {
      var st1 := if restart then st else st.Read(st.input[0].text, st.input[0].nl).(replaced := false);
      if !restart { ReadKeeps(st, st.input[0].text, total); }
      ExecKeepsFlags(env, cmds, 0, st1, fuel);
      ExecKeeps(env, cmds, 0, st1, fuel, total);
      var r := Exec(env, cmds, 0, st1, fuel);
      if r.Some? && r.value.0.Stop? {
        var st2 := r.value.1;
        FlushKeeps(st2, total);
        PrintKeeps(st2, st2.ps, st2.nl, total);
        FlushKeeps(Autoprint(env, st2), total);
        match r.value.0.act
        case End => RunKeeps(env, cmds, FlushAppends(Autoprint(env, st2)), false, fuel - 1, total);
        case Delete => RunKeeps(env, cmds, FlushAppends(st2), false, fuel - 1, total);
        case Restart => RunKeeps(env, cmds, FlushAppends(st2), true, fuel - 1, total);
        case _ =>
      }
    }
  }

  lemma LastIsTotal(env: Env, st: State, total: nat)
    requires Kept(st, total)
    ensures MatchAddress(env, Last, "", st) == Some((st.line == total, st))
  {
  }
}
