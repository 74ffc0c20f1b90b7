/** Scripts everybody knows (shell/sed/sed.go), run over any input: the first lines, the last lines, and all the lines
    upside down. */
module SedScripts {
  import opened Wrappers
  import opened SedInput
  import opened SedRange
  import opened SedParse
  import opened SedExec
  import opened SedCommands

  /** A command without an argument. */
  function Plain(a1: Address, negate: bool, name: char): Command {
    Command(a1, "", NoAddress, "", negate, name, "", Substitution("", "", false, 1, false, ""), map[], 0, 0)
  }

  /** A command with one address, a line's, is done on the lines that have it, and with ! on all others. */
  lemma TurnPlain(env: Env, cmds: seq<Command>, pc: nat, st: State)
    requires pc < |cmds| && FlagsValid(cmds, st.flags) && env.Valid()
    requires var c := cmds[pc]; c.a2.NoAddress? && !c.a1.Regex? && c.name != '{' && c.name != '}' && c.name != ':'
    ensures
      var c := cmds[pc];
      var has := c.a1.NoAddress? || MatchOne(c.a1, st.Seen(false, false), false);
      Turn(env, cmds, pc, st) == if has != c.negate then Do(env, cmds, pc, st) else (Go(pc + 1), st)
  {
    hide Do, MatchOne;
  }

  lemma ExecStep(env: Env, cmds: seq<Command>, pc: nat, st: State, fuel: nat)
    requires FlagsValid(cmds, st.flags) && env.Valid() && pc < |cmds| && fuel > 0
    ensures
      var (next, d) := Turn(env, cmds, pc, st);
      FlagsValid(cmds, d.flags) &&
      Exec(env, cmds, pc, st, fuel) == if next.Go? then Exec(env, cmds, next.pc, d, fuel - 1) else Some((next, d))
  {
    hide Turn, FlagsValid;
    TurnKeepsFlags(env, cmds, pc, st);
  }

  lemma ExecEnds(env: Env, cmds: seq<Command>, pc: nat, st: State, fuel: nat)
    requires FlagsValid(cmds, st.flags) && env.Valid() && pc >= |cmds|
    ensures Exec(env, cmds, pc, st, fuel) == Some((Stop(End), st))
  {
  }

  function ReadLine(st: State): State
    requires st.input != []
  {
    st.Read(st.input[0].text, st.input[0].nl).(replaced := false)
  }

  /** One cycle and what comes after it. */
  lemma RunStep(env: Env, cmds: seq<Command>, st: State, restart: bool, fuel: nat, act: SedExec.Action, d: State)
    requires FlagsValid(cmds, st.flags) && FlagsValid(cmds, d.flags) && env.Valid() && fuel > 0
    requires restart || st.input != []
    requires Exec(env, cmds, 0, if restart then st else ReadLine(st), fuel) == Some((Stop(act), d))
    ensures
      var printed := if env.quiet then d else d.Print(d.ps, d.nl);
      Run(env, cmds, st, restart, fuel) ==
      match act
      case End => Run(env, cmds, FlushAppends(printed), false, fuel - 1)
      case Delete => Run(env, cmds, FlushAppends(d), false, fuel - 1)
      case Restart => Run(env, cmds, FlushAppends(d), true, fuel - 1)
      case Quit => Some(Ended(FlushAppends(printed), true, false))
      case QuitSilent => Some(Ended(d, true, false))
  {
    hide Exec, FlagsValid, FlushAppends;
  }

  /** A command that fails ends the run. */
  lemma RunFails(env: Env, cmds: seq<Command>, st: State, restart: bool, fuel: nat, d: State)
    requires FlagsValid(cmds, st.flags) && env.Valid() && fuel > 0 && (restart || st.input != [])
    requires Exec(env, cmds, 0, if restart then st else ReadLine(st), fuel) == Some((Fail, d))
    ensures Run(env, cmds, st, restart, fuel) == Some(Ended(d, false, true))
  {
    hide Exec, FlagsValid, FlushAppends;
  }

  /** What a program finds when it is run again: new input from its first line, and of the last Run the hold space, the
      open ranges, the last regular expression and the files. */
  lemma AgainMeans(st: State, input: seq<Record>)
    ensures
      var d := Again(st, input);
      && d.input == input && d.line == 0 && d.out == Written("", false) && d.appendQ == [] && d.code == 0
      && d.hold == st.hold && d.flags == st.flags && d.lastRx == st.lastRx && d.files == st.files
  {
  }

  lemma RunOver(env: Env, cmds: seq<Command>, st: State, fuel: nat)
    requires FlagsValid(cmds, st.flags) && env.Valid() && st.input == []
    ensures Run(env, cmds, st, false, fuel) == Some(Ended(st, false, false))
  {
  }

  lemma NothingQueued(st: State)
    requires st.appendQ == []
    ensures FlushAppends(st) == st
  {
  }

  // ---- the first lines ----

  /** nq, or nQ. */
  function Head(n: nat, silent: bool): seq<Command> {
    [Plain(Line(n), false, if silent then 'Q' else 'q')]
  }

  lemma HeadCycle(env: Env, n: nat, silent: bool, st: State, fuel: nat)
    requires env.Valid() && FlagsValid(Head(n, silent), st.flags) && fuel > 0
    ensures Exec(env, Head(n, silent), 0, st, fuel) ==
      if st.line == n then Some((Stop(if silent then QuitSilent else Quit), st.(code := 0))) else Some((Stop(End), st))
  {
    hide Turn, FlagsValid, Exec, Do;
    var cmds := Head(n, silent);
    FlagsCount(cmds, st);
    TurnPlain(env, cmds, 0, st);
    JumpsMean(env, cmds, 0, st);
    ExecStep(env, cmds, 0, st, fuel);
    if st.line != n {
      ExecEnds(env, cmds, 1, st, fuel - 1);
    }
  }

  lemma FlagsCount(cmds: seq<Command>, st: State)
    requires FlagsValid(cmds, st.flags)
    ensures |st.flags| == |cmds|
  {
  }

  /** What nq or nQ does from a state on: with fewer lines left than up to line n it prints them all; otherwise it quits
      at line n, which nQ does not print, and the lines after it are not read. */
  ghost predicate Heads(n: nat, silent: bool, st: State, r: Option<Ended>)
    requires st.line < n
  {
    var left := n - st.line;
    r.Some? && !r.value.failed &&
    if |st.input| < left then
      !r.value.quit && r.value.st.code == st.code && r.value.st.out == PrintAll(st.out, st.input)
    else
      && r.value.quit && r.value.st.code == 0 && r.value.st.input == st.input[left..]
      && r.value.st.out == PrintAll(st.out, st.input[..if silent then left - 1 else left])
  }

  /** Line n itself. */
  lemma HeadLast(n: nat, silent: bool, st: State, d: State)
    requires st.line + 1 == n && st.input != []
    requires d == ReadLine(st).(code := 0) || d == ReadLine(st).Print(st.input[0].text, st.input[0].nl).(code := 0)
    requires d.out == if silent then st.out else st.out.Line(st.input[0].text, st.input[0].nl)
    ensures Heads(n, silent, st, Some(Ended(d, true, false)))
  {
    hide Written.Line, PrintAll;
    PrintOne(st.out, st.input);
  }

  /** One line before it. */
  lemma HeadMore(n: nat, silent: bool, st: State, d: State, r: Option<Ended>)
    requires st.line + 1 < n && st.input != [] && d == ReadLine(st).Print(st.input[0].text, st.input[0].nl)
    requires Heads(n, silent, d, r)
    ensures Heads(n, silent, st, r)
  {
    hide Written.Line, PrintAll;
    PrintMore(st.out, st.input, if silent then n - st.line - 1 else n - st.line);
    SkipMore(st.input, n - st.line);
  }

  /** nq prints the first n lines and nQ those before line n; the rest is not read. With fewer lines both print all. */
  lemma {:induction false} HeadPrints(env: Env, n: nat, silent: bool, st: State, fuel: nat)
    requires env.Valid() && !env.quiet && FlagsValid(Head(n, silent), st.flags) && st.appendQ == []
    requires st.line < n && fuel > |st.input|
    ensures Heads(n, silent, st, Run(env, Head(n, silent), st, false, fuel))
    decreases |st.input|
  {
    hide Exec, FlagsValid, FlushAppends, Head, Written.Line, PrintAll, Run, Heads;
    if st.input != [] {
      var st1 := ReadLine(st);
      var st2 := st1.Print(st1.ps, st1.nl);
      HeadCycle(env, n, silent, st1, fuel);
      NothingQueued(st2);
      NothingQueued(st2.(code := 0));
      if st1.line == n {
        RunStep(env, Head(n, silent), st, false, fuel, if silent then QuitSilent else Quit, st1.(code := 0));
        HeadLast(n, silent, st, if silent then st1.(code := 0) else st2.(code := 0));
      } else {
        RunStep(env, Head(n, silent), st, false, fuel, End, st1);
        HeadPrints(env, n, silent, st2, fuel - 1);
        HeadMore(n, silent, st, st2, Run(env, Head(n, silent), st2, false, fuel - 1));
      }
    } else {
      RunOver(env, Head(n, silent), st, fuel);
      HeadNone(n, silent, st);
    }
  }

  lemma HeadNone(n: nat, silent: bool, st: State)
    requires st.line < n && st.input == []
    ensures Heads(n, silent, st, Some(Ended(st, false, false)))
  {
    PrintNone(st.out);
  }

  lemma PrintNone(out: Written)
    ensures PrintAll(out, []) == out
  {
  }

  lemma PrintOne(out: Written, rs: seq<Record>)
    requires rs != []
    ensures PrintAll(out, rs[..1]) == out.Line(rs[0].text, rs[0].nl) && PrintAll(out, rs[..0]) == out
  {
    assert rs[..1][1..] == [];
  }

  lemma PrintMore(out: Written, rs: seq<Record>, k: nat)
    requires rs != []
    ensures PrintAll(out, rs) == PrintAll(out.Line(rs[0].text, rs[0].nl), rs[1..])
    ensures 0 < k <= |rs| ==> PrintAll(out, rs[..k]) == PrintAll(out.Line(rs[0].text, rs[0].nl), rs[1..][..k - 1])
  {
    if 0 < k <= |rs| {
      assert rs[..k][1..] == rs[1..][..k - 1];
    }
  }

  lemma SkipMore<T>(s: seq<T>, k: nat)
    ensures 0 < k <= |s| ==> s[1..][k - 1..] == s[k..]
  {
  }

  // ---- upside down ----

  /** 1!G;h;$!d */
  const TAC: seq<Command> := [Plain(Line(1), true, 'G'), Plain(NoAddress, false, 'h'), Plain(Last, true, 'd')]

  lemma TacCycle(env: Env, st: State, fuel: nat)
    requires env.Valid() && FlagsValid(TAC, st.flags) && fuel >= 3
    ensures
      var ps := if st.line == 1 then st.ps else st.ps + "\n" + st.hold;
      Exec(env, TAC, 0, st, fuel) == Some((Stop(if st.LastLine() then End else Delete), st.(ps := ps, hold := ps)))
  {
    hide Turn, FlagsValid, Exec, Simple;
    FlagsCount(TAC, st);
    TurnPlain(env, TAC, 0, st);
    ExecStep(env, TAC, 0, st, fuel);
    HoldMeans(env, TAC[0], st);
    SimpleMeans(env, TAC[0], st);
    var st1 := Turn(env, TAC, 0, st).1;
    TurnPlain(env, TAC, 1, st1);
    ExecStep(env, TAC, 1, st1, fuel - 1);
    HoldMeans(env, TAC[1], st1);
    SimpleMeans(env, TAC[1], st1);
    var st2 := Turn(env, TAC, 1, st1).1;
    TurnPlain(env, TAC, 2, st2);
    ExecStep(env, TAC, 2, st2, fuel - 2);
    if st.LastLine() {
      ExecEnds(env, TAC, 3, st2, fuel - 3);
    }
  }

  /** The lines from the last to the first, all of them ended as nl says. */
  function Backwards(rs: seq<Record>, nl: bool): seq<Record> {
    seq(|rs|, i requires 0 <= i < |rs| => Record(rs[|rs| - 1 - i].text, nl))
  }

  lemma BackwardsMore(rs: seq<Record>, r: Record, nl: bool)
    ensures Terminated(Backwards(rs + [r], nl)) ==
      if rs == [] then Text(Record(r.text, nl)) else r.text + "\n" + Terminated(Backwards(rs, nl))
  {
    var all := Backwards(rs + [r], nl);
    assert all[0] == Record(r.text, nl) && all[1..] == Backwards(rs, nl);
  }

  lemma BackwardsOn(rs: seq<Record>, r: Record)
    ensures Terminated(Backwards(rs + [r], false)) ==
      if rs == [] then r.text else r.text + "\n" + Terminated(Backwards(rs, false))
  {
    BackwardsMore(rs, r, false);
    assert r.text + "" == r.text;
  }

  lemma {:induction false} LastNewline(rs: seq<Record>, nl: bool)
    requires rs != []
    ensures Terminated(Backwards(rs, nl)) == Terminated(Backwards(rs, false)) + if nl then "\n" else ""
    decreases |rs|
  {
    var n := |rs| - 1;
    assert rs[..n] + [rs[n]] == rs;
    BackwardsMore(rs[..n], rs[n], nl);
    BackwardsMore(rs[..n], rs[n], false);
    if n > 0 {
      LastNewline(rs[..n], nl);
      Assoc(rs[n].text + "\n", Terminated(Backwards(rs[..n], false)), if nl then "\n" else "");
    } else {
      assert rs[0].text + "" == rs[0].text;
    }
  }

  lemma {:induction false} TacFrom(env: Env, st: State, done: seq<Record>, fuel: nat)
    requires env.Valid() && !env.quiet && FlagsValid(TAC, st.flags) && st.appendQ == []
    requires st.line == |done| && (done != [] ==> st.hold == Terminated(Backwards(done, false)))
    requires fuel >= |st.input| + 3
    ensures
      var all := done + st.input;
      var r := Run(env, TAC, st, false, fuel);
      r.Some? && !r.value.quit && !r.value.failed &&
      r.value.st.out ==
        if st.input == [] then st.out
        else st.out.Line(Terminated(Backwards(all, false)), all[|all| - 1].nl)
    decreases |st.input|
  {
    hide Exec, FlagsValid, FlushAppends, Terminated, Written.Line, TAC, Backwards, Run;
    if st.input == [] {
      RunOver(env, TAC, st, fuel);
    } else {
      var r, more := st.input[0], st.input[1..];
      var st1 := ReadLine(st);
      TacCycle(env, st1, fuel);
      BackwardsOn(done, r);
      var ps := Terminated(Backwards(done + [r], false));
      var st2 := st1.(ps := ps, hold := ps);
      DoneOne(done, st.input);
      if more == [] {
        var st3 := st2.Print(ps, r.nl);
        RunStep(env, TAC, st, false, fuel, End, st2);
        NothingQueued(st3);
        RunOver(env, TAC, st3, fuel - 1);
      } else {
        RunStep(env, TAC, st, false, fuel, Delete, st2);
        NothingQueued(st2);
        TacFrom(env, st2, done + [r], fuel - 1);
      }
    }
  }

  lemma DoneOne(done: seq<Record>, left: seq<Record>)
    requires left != []
    ensures done + [left[0]] + left[1..] == done + left
    ensures left[1..] == [] ==> done + [left[0]] == done + left && (done + left)[|done|] == left[0]
  {
  }

  /** 1!G;h;$!d prints the lines upside down, the very last newline as it was read. */
  lemma TacReverses(env: Env, input: seq<Record>, hold: string, flags: seq<Flag>, fuel: nat)
    requires env.Valid() && !env.quiet && FlagsValid(TAC, flags) && fuel >= |input| + 3 && input != []
    ensures
      var r := Run(env, TAC, Start(input, hold, flags), false, fuel);
      r.Some? && !r.value.quit && !r.value.failed &&
      r.value.st.out.text == Terminated(Backwards(input, input[|input| - 1].nl))
  {
    hide Run, FlagsValid, Terminated, Backwards, TAC;
    TacFrom(env, Start(input, hold, flags), [], fuel);
    assert [] + input == input;
    var nl := input[|input| - 1].nl;
    LineText(Written("", false), Record(Terminated(Backwards(input, false)), nl));
    LastNewline(input, nl);
    assert "" + "" + Text(Record(Terminated(Backwards(input, false)), nl)) == Terminated(Backwards(input, nl));
  }

  // ---- the last lines ----

  /** $!N;$!D */
  const TAIL: seq<Command> := [Plain(Last, true, 'N'), Plain(Last, true, 'D')]

  predicate OneLine(s: string) {
    '\n' !in s
  }

  lemma FirstLineEnds(a: string, b: string, end: nat)
    requires OneLine(a) && end <= |a + "\n" + b| && '\n' !in (a + "\n" + b)[..end]
    requires end < |a + "\n" + b| ==> (a + "\n" + b)[end] == '\n'
    ensures end == |a| && (a + "\n" + b)[end + 1..] == b
  {
    var s := a + "\n" + b;
    assert s[|a|] == '\n' && forall i :: 0 <= i < |a| ==> s[i] == a[i];
    assert forall i :: 0 <= i < end ==> s[..end][i] == s[i];
  }

  /** One cycle on one line: the next line is taken in, and with more to come the first one is deleted. */
  lemma TailCycle(env: Env, st: State, fuel: nat)
    requires env.Valid() && FlagsValid(TAIL, st.flags) && fuel >= 2 && OneLine(st.ps) && st.appendQ == []
    ensures
      Exec(env, TAIL, 0, st, fuel) ==
      if st.input == [] then Some((Stop(End), st))
      else
        var r := st.input[0];
        var both := st.Read(st.ps + "\n" + r.text, r.nl);
        Some(if |st.input| == 1 then (Stop(End), both) else (Stop(Restart), both.(ps := r.text)))
  {
    hide Turn, FlagsValid, Exec, FlushAppends;
    FlagsCount(TAIL, st);
    NothingQueued(st);
    TurnPlain(env, TAIL, 0, st);
    ExecStep(env, TAIL, 0, st, fuel);
    NextMeans(env, TAIL, 0, st);
    var st1 := Turn(env, TAIL, 0, st).1;
    TurnPlain(env, TAIL, 1, st1);
    ExecStep(env, TAIL, 1, st1, fuel - 1);
    if |st.input| <= 1 {
      ExecEnds(env, TAIL, 2, st1, fuel - 2);
    } else {
      var end := DeleteMeans(env, TAIL, 1, st1);
      FirstLineEnds(st.ps, st.input[0].text, end);
      NothingQueued(st1.(ps := st.input[0].text));
    }
  }

  /** The last two lines as one, or the only one. */
  function LastTwo(all: seq<Record>): Record
    requires all != []
  {
    var n := |all|;
    Record((if n == 1 then "" else all[n - 2].text + "\n") + all[n - 1].text, all[n - 1].nl)
  }

  lemma LastTwoMore(r: Record, rest: seq<Record>)
    ensures rest == [] ==> LastTwo([r] + rest) == r
    ensures |rest| == 1 ==> LastTwo([r] + rest) == Record(r.text + "\n" + rest[0].text, rest[0].nl)
    ensures |rest| >= 2 ==> LastTwo([r] + rest) == LastTwo(rest)
  {
    assert "" + r.text == r.text;
  }

  /** The last two of all the lines, the one in the pattern space first. */
  lemma {:induction false} TailFrom(env: Env, st: State, fuel: nat)
    requires env.Valid() && !env.quiet && FlagsValid(TAIL, st.flags) && st.appendQ == []
    requires OneLine(st.ps) && (forall r :: r in st.input ==> OneLine(r.text)) && fuel >= |st.input| + 3
    ensures
      var last := LastTwo([Record(st.ps, st.nl)] + st.input);
      var r := Run(env, TAIL, st, true, fuel);
      r.Some? && !r.value.quit && !r.value.failed && r.value.st.out == st.out.Line(last.text, last.nl)
    decreases |st.input|
  {
    hide Exec, FlagsValid, FlushAppends, Written.Line, TAIL, Run, LastTwo;
    TailCycle(env, st, fuel);
    LastTwoMore(Record(st.ps, st.nl), st.input);
    if |st.input| <= 1 {
      var d := if st.input == [] then st else st.Read(st.ps + "\n" + st.input[0].text, st.input[0].nl);
      RunStep(env, TAIL, st, true, fuel, End, d);
      NothingQueued(d.Print(d.ps, d.nl));
      RunOver(env, TAIL, d.Print(d.ps, d.nl), fuel - 1);
    } else {
      var r := st.input[0];
      var d := st.Read(r.text, r.nl);
      RunStep(env, TAIL, st, true, fuel, Restart, d);
      NothingQueued(d);
      TailFrom(env, d, fuel - 1);
      assert [Record(r.text, r.nl)] + d.input == st.input;
    }
  }

  /** $!N;$!D prints the last two lines, or the only one. */
  lemma TailPrints(env: Env, input: seq<Record>, hold: string, flags: seq<Flag>, fuel: nat)
    requires env.Valid() && !env.quiet && FlagsValid(TAIL, flags) && fuel >= |input| + 3 && input != []
    requires forall r :: r in input ==> OneLine(r.text)
    ensures
      var n := |input|;
      var r := Run(env, TAIL, Start(input, hold, flags), false, fuel);
      r.Some? && !r.value.quit && !r.value.failed &&
      r.value.st.out ==
        Written("", false).Line((if n == 1 then "" else input[n - 2].text + "\n") + input[n - 1].text, input[n - 1].nl)
  {
    hide Run, FlagsValid, TAIL;
    var st := Start(input, hold, flags);
    var d := ReadLine(st);
    FirstIsRead(env, st, fuel);
    TailFrom(env, d, fuel);
    assert [Record(d.ps, d.nl)] + d.input == input;
  }

  /** A run begins by reading a line. */
  lemma FirstIsRead(env: Env, st: State, fuel: nat)
    requires env.Valid() && FlagsValid(TAIL, st.flags) && st.input != [] && fuel > 0
    ensures Run(env, TAIL, st, false, fuel) == Run(env, TAIL, ReadLine(st), true, fuel)
  {
    hide Exec, FlagsValid, FlushAppends;
  }
}
