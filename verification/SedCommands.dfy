/** What sed's commands mean (shell/sed/sed.go), each by itself and in scripts everybody knows. */
module SedCommands {
  import opened Wrappers
  import opened SedInput
  import opened SedRange
  import opened SedParse
  import opened SedExec
  import Terminal

  // ---- s ----

  /** out is the text from prev on with the first n matches replaced: at[i] is where what replaces match i begins in
      out, and what follows it up to the next of those matches, or the end, is the text between. */
  ghost predicate Rewritten(env: Env, repl: string, ps: string, ms: seq<Match>, n: nat, prev: nat, out: string,
                            at: seq<nat>)
  {
    && 0 < n <= |ms| && |at| == n + 1 && prev <= ms[0].start && at[0] == ms[0].start - prev && at[n] == |out|
    && (forall i :: 0 <= i < n ==> ms[i].start <= ms[i].end <= Until(ps, ms, n, i) <= |ps|)
    && (forall i :: 0 <= i < n ==> PieceAt(env, repl, ps, ms, n, out, at[i], at[i + 1], i))
    && at[0] <= |out| && out[..at[0]] == ps[prev..ms[0].start]
  }

  /** Where the text after match i ends: at the next of the first n matches, or at the end. */
  function Until(ps: string, ms: seq<Match>, n: nat, i: nat): nat
    requires i < n <= |ms|
  {
    if i + 1 < n then ms[i + 1].start else |ps|
  }

  /** From a to b, out has what replaces match i and the text after it. */
  ghost predicate PieceAt(env: Env, repl: string, ps: string, ms: seq<Match>, n: nat, out: string, a: nat, b: nat,
                          i: nat)
    requires i < n <= |ms| && ms[i].end <= Until(ps, ms, n, i) <= |ps|
  {
    a <= b <= |out| && out[a..b] == env.expand(repl, ps, ms[i]) + ps[ms[i].end..Until(ps, ms, n, i)]
  }

  lemma PieceMoves(env: Env, repl: string, ps: string, ms: seq<Match>, n: nat, out: string, a: nat, b: nat, i: nat,
                   head: string)
    requires i < n < |ms| && ms[i + 1].end <= Until(ps, ms[1..], n, i) <= |ps|
    requires PieceAt(env, repl, ps, ms[1..], n, out, a, b, i)
    ensures PieceAt(env, repl, ps, ms, n + 1, head + out, |head| + a, |head| + b, i + 1)
  {
    assert (head + out)[|head| + a..|head| + b] == out[a..b];
  }

  /** The places, with one match more in front whose text is at first and with head before the rest. */
  function Shifted(at: seq<nat>, first: nat, head: nat): (r: seq<nat>)
    ensures |r| == |at| + 1 && r[0] == first && forall i :: 0 <= i < |at| ==> r[i + 1] == head + at[i]
  {
    [first] + seq(|at|, i requires 0 <= i < |at| => head + at[i])
  }

  lemma UntilMore(ps: string, ms: seq<Match>, n: nat, i: nat)
    requires i < n < |ms|
    ensures ms[1..][i] == ms[i + 1] && Until(ps, ms[1..], n, i) == Until(ps, ms, n + 1, i + 1)
  {
  }

  /** One replaced match more in front. */
  lemma RewrittenMore(env: Env, repl: string, ps: string, ms: seq<Match>, n: nat, prev: nat, rest: string,
                      at: seq<nat>) returns (at': seq<nat>)
    requires n < |ms| && prev <= ms[0].start <= ms[0].end && ms[0].end <= |ps| && ms[0].start <= |ps|
    requires Rewritten(env, repl, ps, ms[1..], n, ms[0].end, rest, at)
    ensures Rewritten(env, repl, ps, ms, n + 1, prev,
                      ps[prev..ms[0].start] + env.expand(repl, ps, ms[0]) + rest, at')
  {
    hide PieceAt, Until, Shifted;
    var p := ps[prev..ms[0].start];
    var head := p + env.expand(repl, ps, ms[0]);
    at' := Shifted(at, |p|, |head|);
    FirstUntil(ps, ms, n + 1);
    assert ms[1..][0] == ms[1];
    forall i | 0 <= i < n + 1 ensures ms[i].start <= ms[i].end <= Until(ps, ms, n + 1, i) <= |ps| {
      if i > 0 {
        UntilMore(ps, ms, n, i - 1);
      }
    }
    PiecesMore(env, repl, ps, ms, n, prev, rest, at);
    Assoc(p, env.expand(repl, ps, ms[0]), rest);
    TakeFront(p, env.expand(repl, ps, ms[0]) + rest);
  }

  lemma TakeFront<T>(a: seq<T>, b: seq<T>)
    ensures (a + b)[..|a|] == a
  {
  }

  lemma FirstUntil(ps: string, ms: seq<Match>, n: nat)
    requires 0 < n <= |ms|
    ensures Until(ps, ms, n, 0) == if n == 1 then |ps| else ms[1].start
  {
  }

  lemma PiecesMore(env: Env, repl: string, ps: string, ms: seq<Match>, n: nat, prev: nat, rest: string, at: seq<nat>)
    requires n < |ms| && prev <= ms[0].start <= ms[0].end && ms[0].end <= |ps| && ms[0].start <= |ps|
    requires Rewritten(env, repl, ps, ms[1..], n, ms[0].end, rest, at)
    requires forall i :: 0 <= i < n + 1 ==> ms[i].end <= Until(ps, ms, n + 1, i) <= |ps|
    ensures
      var p := ps[prev..ms[0].start];
      var head := p + env.expand(repl, ps, ms[0]);
      var at' := Shifted(at, |p|, |head|);
      forall i :: 0 <= i < n + 1 ==> PieceAt(env, repl, ps, ms, n + 1, head + rest, at'[i], at'[i + 1], i)
  {
    hide PieceAt, Shifted, Until;
    FirstUntil(ps, ms[1..], n);
    FirstUntil(ps, ms, n + 1);
    var p := ps[prev..ms[0].start];
    var head := p + env.expand(repl, ps, ms[0]);
    var at' := Shifted(at, |p|, |head|);
    forall i | 0 <= i < n + 1 ensures PieceAt(env, repl, ps, ms, n + 1, head + rest, at'[i], at'[i + 1], i) {
      if i > 0 {
        PieceMoves(env, repl, ps, ms, n, rest, at[i - 1], at[i], i - 1, head);
      } else {
        FirstPiece(env, repl, ps, ms, n + 1, prev, rest, at[0]);
      }
    }
  }

  lemma FirstPiece(env: Env, repl: string, ps: string, ms: seq<Match>, n: nat, prev: nat, rest: string, b: nat)
    requires 0 < n <= |ms| && prev <= ms[0].start <= ms[0].end <= Until(ps, ms, n, 0) <= |ps|
    requires b <= |rest| && rest[..b] == ps[ms[0].end..Until(ps, ms, n, 0)]
    ensures
      var e := env.expand(repl, ps, ms[0]);
      var head := ps[prev..ms[0].start] + e;
      PieceAt(env, repl, ps, ms, n, head + rest, ms[0].start - prev, |head| + b, 0)
  {
    var e := env.expand(repl, ps, ms[0]);
    var p := ps[prev..ms[0].start];
    assert (p + e + rest)[|p|..|p + e| + b] == e + rest[..b];
  }

  lemma RewrittenOne(env: Env, repl: string, ps: string, ms: seq<Match>, prev: nat) returns (at: seq<nat>)
    requires ms != [] && prev <= ms[0].start <= ms[0].end <= |ps|
    ensures
      var out := ps[prev..ms[0].start] + env.expand(repl, ps, ms[0]) + ps[ms[0].end..];
      Rewritten(env, repl, ps, ms, 1, prev, out, at)
  {
    hide PieceAt;
    var rest := ps[ms[0].end..];
    var head := ps[prev..ms[0].start] + env.expand(repl, ps, ms[0]);
    at := [ms[0].start - prev, |head + rest|];
    assert rest[..|rest|] == rest;
    FirstPiece(env, repl, ps, ms, 1, prev, rest, |rest|);
    assert (head + rest)[..at[0]] == ps[prev..ms[0].start];
  }

  /** From the nth match on: that one, and with g all after it. */
  lemma {:induction false} ReplacedPieces(env: Env, sub: Substitution, ps: string, ms: seq<Match>, k: nat, prev: nat)
    returns (at: seq<nat>)
    requires InOrder(ms, prev, |ps|) && ms != [] && (k == sub.nth || (k > sub.nth && sub.global))
    ensures Rewritten(env, sub.repl, ps, ms, if sub.global then |ms| else 1, prev,
                      Replaced(env, sub, ps, ms, k, prev), at)
    decreases |ms|
  {
    hide Replaced, Rewritten, InOrder;
    ReplacedNext(env, sub, ps, ms, k, prev);
    var end := ms[0].end;
    if sub.global && |ms| > 1 {
      at := ReplacedPieces(env, sub, ps, ms[1..], k + 1, end);
      at := RewrittenMore(env, sub.repl, ps, ms, |ms| - 1, prev, Replaced(env, sub, ps, ms[1..], k + 1, end), at);
    } else {
      if |ms| > 1 {
        ReplacedNext(env, sub, ps, ms[1..], k + 1, end);
      } else {
        assert ms[1..] == [];
        ReplacedNone(env, sub, ps, k + 1, end);
      }
      at := RewrittenOne(env, sub.repl, ps, ms, prev);
    }
  }

  lemma {:induction false} ReplacedSkips(env: Env, sub: Substitution, ps: string, ms: seq<Match>, k: nat, prev: nat)
    requires InOrder(ms, prev, |ps|) && k <= sub.nth < k + |ms|
    ensures InOrder(ms[sub.nth - k..], prev, |ps|)
    ensures Replaced(env, sub, ps, ms, k, prev) == Replaced(env, sub, ps, ms[sub.nth - k..], sub.nth, prev)
    decreases |ms|
  {
    hide Replaced, InOrder;
    if k < sub.nth {
      ReplacedNext(env, sub, ps, ms, k, prev);
      ReplacedSkips(env, sub, ps, ms[1..], k + 1, prev);
      assert ms[1..][sub.nth - k - 1..] == ms[sub.nth - k..];
    } else {
      assert ms[0..] == ms;
    }
  }

  /** What is left alone by s. */
  predicate BesidesTheSpace(st: State, d: State) {
    && d.input == st.input && d.line == st.line && d.nl == st.nl && d.appendQ == st.appendQ && d.hold == st.hold
    && d.flags == st.flags && d.code == st.code
  }

  function FileThen(files: map<string, string>, name: string, more: string): map<string, string> {
    files[name := (if name in files then files[name] else "") + more]
  }

  predicate Writable(env: Env, files: map<string, string>, name: string) {
    name in files || env.canWrite(name)
  }

  /** s: with fewer matches than asked for, nothing but the last regular expression changes; otherwise the nth match is
      replaced, with g also those after it and without g no other, p prints what comes of it and w writes it. */
  lemma SubstituteMeans(env: Env, sub: Substitution, st: State) returns (at: seq<nat>)
    requires env.Valid() && sub.nth > 0
    ensures
      var used := if sub.re == "" then st.lastRx else Some(sub.re);
      var r := Substitute(env, sub, st);
      if used.None? then r.None?
      else
        var ms := env.find(used.value, st.ps);
        if |ms| < sub.nth then r == Some(st.(lastRx := used))
        else
          && (r.None? <==> sub.wfile != "" && !Writable(env, st.files, sub.wfile))
          && (r.Some? ==>
               var d := r.value;
               && BesidesTheSpace(st, d) && d.replaced && d.lastRx == used
               && d.out == (if sub.show then st.out.Line(d.ps, st.nl) else st.out)
               && d.files == (if sub.wfile == "" then st.files else FileThen(st.files, sub.wfile, d.ps + "\n"))
               && Rewritten(env, sub.repl, st.ps, ms[sub.nth - 1..], if sub.global then |ms| - (sub.nth - 1) else 1, 0,
                            d.ps, at))
  {
    hide Replaced, Rewritten, InOrder;
    var used := if sub.re == "" then st.lastRx else Some(sub.re);
    at := [];
    if used.Some? {
      var ms := env.find(used.value, st.ps);
      if |ms| >= sub.nth {
        ReplacedSkips(env, sub, st.ps, ms, 1, 0);
        at := ReplacedPieces(env, sub, st.ps, ms[sub.nth - 1..], sub.nth, 0);
        var line := Replaced(env, sub, st.ps, ms, 1, 0) + "\n";
        assert "" + line == line;
      }
    }
  }

  // ---- the commands that only change the state ----

  predicate MakesSpace(name: char) {
    name == 'g' || name == 'G' || name == 'x' || name == 'z' || name == 'y'
  }

  predicate MakesHold(name: char) {
    name == 'h' || name == 'H' || name == 'x'
  }

  predicate Prints(name: char) {
    name == '=' || name == 'i' || name == 'p' || name == 'P'
  }

  /** What no such command touches. */
  predicate BesidesText(st: State, d: State) {
    && d.input == st.input && d.line == st.line && d.nl == st.nl && d.replaced == st.replaced
    && d.flags == st.flags && d.lastRx == st.lastRx && d.code == st.code
  }

  /** Command c leaves all but the spaces, what is printed, what is queued and the files as they are, and each of those
      unless it is what the command is for; w writes the pattern space, or fails. */
  lemma SimpleMeans(env: Env, c: Command, st: State)
    requires env.Valid() && c.name != 's'
    ensures
      var r := Simple(env, c, st);
      (r.None? <==> c.name == 'w' && !Writable(env, st.files, c.text)) &&
      (r.Some? ==>
        var d := r.value;
        && BesidesText(st, d)
        && (!MakesSpace(c.name) ==> d.ps == st.ps) && (!MakesHold(c.name) ==> d.hold == st.hold)
        && (!Prints(c.name) ==> d.out == st.out) && (c.name != 'a' && c.name != 'r' ==> d.appendQ == st.appendQ)
        && d.files == if c.name == 'w' then FileThen(st.files, c.text, st.ps + "\n") else st.files)
  {
    hide Translit, NewlineIn, Written.Line, Written.Write, BesidesText, EndsLine, FileThen, Simple;
    if c.name == 'w' {
      WriteMeans(env, c, st);
    } else {
      TextOnly(env, c, st);
      SpacesOnly(env, c, st);
    }
  }

  lemma SpacesOnly(env: Env, c: Command, st: State)
    requires env.Valid() && c.name != 's' && c.name != 'w'
    ensures
      var r := Simple(env, c, st);
      r.Some? && (!MakesSpace(c.name) ==> r.value.ps == st.ps) && (!MakesHold(c.name) ==> r.value.hold == st.hold) &&
      (!Prints(c.name) ==> r.value.out == st.out)
  {
    hide Translit, NewlineIn, Written.Line, Written.Write, EndsLine;
  }

  lemma TextOnly(env: Env, c: Command, st: State)
    requires env.Valid() && c.name != 's' && c.name != 'w'
    ensures
      var r := Simple(env, c, st);
      r.Some? && BesidesText(st, r.value) && r.value.files == st.files &&
      (c.name != 'a' && c.name != 'r' ==> r.value.appendQ == st.appendQ)
  {
    hide Translit, NewlineIn, Written.Line, Written.Write;
  }

  lemma WriteMeans(env: Env, c: Command, st: State)
    requires env.Valid() && c.name == 'w'
    ensures
      var r := Simple(env, c, st);
      (r.None? <==> !Writable(env, st.files, c.text)) &&
      (r.Some? ==> BesidesText(st, r.value) && r.value == st.(files := FileThen(st.files, c.text, st.ps + "\n")))
  {
    var line := st.ps + "\n";
    assert "" + line == line;
  }

  /** The hold space: g and h copy, G and H append, x exchanges. */
  lemma HoldMeans(env: Env, c: Command, st: State)
    requires env.Valid()
    ensures
      var r := Simple(env, c, st);
      && (c.name == 'g' ==> r.Some? && r.value.ps == st.hold)
      && (c.name == 'h' ==> r.Some? && r.value.hold == st.ps)
      && (c.name == 'G' ==> r.Some? && r.value.ps == st.ps + "\n" + st.hold)
      && (c.name == 'H' ==> r.Some? && r.value.hold == st.hold + "\n" + st.ps)
      && (c.name == 'x' ==> r.Some? && r.value.ps == st.hold && r.value.hold == st.ps)
      && (c.name == 'z' ==> r.Some? && r.value.ps == "")
      && (c.name == 'y' ==>
           r.Some? && |r.value.ps| == |st.ps| &&
           forall i :: 0 <= i < |st.ps| ==>
             r.value.ps[i] == if st.ps[i] in c.ymap then c.ymap[st.ps[i]] else st.ps[i])
  {
    hide Translit;
  }

  /** What is printed at once, and what is queued for the cycle's end: p the pattern space as it was read, P its first
      line, = the line's number, i and a the text, and r a file that can be read, its last line ended. */
  lemma PrintsMean(env: Env, c: Command, st: State) returns (end: nat)
    requires env.Valid()
    ensures end <= |st.ps| && '\n' !in st.ps[..end] && (end < |st.ps| ==> st.ps[end] == '\n')
    ensures
      var r := Simple(env, c, st);
      && (c.name == 'p' ==> r.Some? && r.value.out == st.out.Line(st.ps, st.nl))
      && (c.name == 'P' ==> r.Some? && r.value.out == st.out.Line(st.ps[..end], true))
      && (c.name == '=' ==> r.Some? && r.value.out == st.out.Write(Terminal.Itoa(st.line) + "\n"))
      && (c.name == 'i' ==> r.Some? && r.value.out == st.out.Write(c.text + "\n"))
      && (c.name == 'a' ==> r.Some? && r.value.appendQ == st.appendQ + [c.text + "\n"])
      && (c.name == 'r' ==>
           r.Some? &&
           match env.readFile(c.text)
           case None => r.value.appendQ == st.appendQ
           case Some(s) =>
             if s == "" then r.value.appendQ == st.appendQ
             else if EndsLine(s) then r.value.appendQ == st.appendQ + [s]
             else r.value.appendQ == st.appendQ + [s + "\n"])
  {
    hide Translit;
    end := NewlineAt(st.ps, 0);
    assert st.ps[..|st.ps|] == st.ps;
  }

  function Concat(ss: seq<string>): string {
    if ss == [] then "" else ss[0] + Concat(ss[1..])
  }

  /** What was queued is written in the order it was queued, after a newline that is still owed. */
  lemma {:induction false} FlushMeans(st: State)
    ensures
      var d := FlushAppends(st);
      && d.appendQ == [] && d == st.(out := d.out, appendQ := [])
      && d.out.text == st.out.text + (if st.appendQ != [] && st.out.missingNL then "\n" else "") + Concat(st.appendQ)
      && d.out.missingNL == (st.out.missingNL && st.appendQ == [])
    decreases |st.appendQ|
  {
    if st.appendQ != [] {
      var w := st.out.text + if st.out.missingNL then "\n" else "";
      FlushMeans(st.(out := st.out.Write(st.appendQ[0]), appendQ := st.appendQ[1..]));
      assert w + st.appendQ[0] + "" == w + st.appendQ[0];
      Assoc(w, st.appendQ[0], Concat(st.appendQ[1..]));
    } else {
      assert st.out.text + "" + "" == st.out.text;
    }
  }

  // ---- the commands that lead elsewhere ----

  /** n prints the line and reads the next, N appends it; at the last line both end the script. */
  lemma NextMeans(env: Env, cmds: seq<Command>, i: nat, st: State)
    requires i < |cmds| && |st.flags| == |cmds| && env.Valid() && (cmds[i].name == 'n' || cmds[i].name == 'N')
    ensures
      var (next, d) := Do(env, cmds, i, st);
      if st.input == [] then next == Stop(End) && d == st
      else
        var r := st.input[0];
        var printed := if cmds[i].name == 'n' && !env.quiet then st.Print(st.ps, st.nl) else st;
        && next == Go(i + 1) && d.out == FlushAppends(printed).out && d.appendQ == []
        && d.ps == (if cmds[i].name == 'n' then r.text else st.ps + "\n" + r.text) && d.nl == r.nl
        && d.input == st.input[1..] && d.line == st.line + 1
        && d == st.(ps := d.ps, nl := d.nl, input := d.input, line := d.line, out := d.out, appendQ := [])
  {
    hide FlushAppends, Simple;
  }

  /** D deletes the first line of several and goes on with the rest without reading; d, and D on one line, delete all. c
      writes its text, for a range only at its end. */
  lemma DeleteMeans(env: Env, cmds: seq<Command>, i: nat, st: State) returns (end: nat)
    requires i < |cmds| && |st.flags| == |cmds| && env.Valid()
    ensures end <= |st.ps| && '\n' !in st.ps[..end] && (end < |st.ps| ==> st.ps[end] == '\n')
    ensures
      var c := cmds[i];
      var (next, d) := Do(env, cmds, i, st);
      && (c.name == 'd' ==> next == Stop(Delete) && d == st)
      && (c.name == 'D' ==>
           if end == |st.ps| then next == Stop(Delete) && d == st
           else next == Stop(Restart) && d == FlushAppends(st.(ps := st.ps[end + 1..])))
      && (c.name == 'c' ==>
           var inside := !c.a2.NoAddress? && st.flags[i].active && !c.negate;
           next == Stop(Delete) && d == if inside then st else st.Write(c.text + "\n"))
  {
    hide FlushAppends, Simple;
    end := NewlineAt(st.ps, 0);
  }

  /** q and Q end with the code that was given; b goes to its label, t after a replacement, which it forgets, and T
      after none. */
  lemma JumpsMean(env: Env, cmds: seq<Command>, i: nat, st: State)
    requires i < |cmds| && |st.flags| == |cmds| && env.Valid()
    ensures
      var c := cmds[i];
      var (next, d) := Do(env, cmds, i, st);
      && (c.name == 'q' ==> next == Stop(Quit) && d == st.(code := c.code))
      && (c.name == 'Q' ==> next == Stop(QuitSilent) && d == st.(code := c.code))
      && (c.name == 'b' ==> next == Go(c.block + 1) && d == st)
      && (c.name == 't' || c.name == 'T' ==>
           next == Go(if st.replaced == (c.name == 't') then c.block + 1 else i + 1) && d == st.(replaced := false))
  {
    hide FlushAppends, Simple;
  }

  // ---- which lines ----

  /** The regular expression that is looked for, an empty one standing for the last that was. */
  function Used(re: Pattern, st: State): Option<Pattern> {
    if re == "" then st.lastRx else Some(re)
  }

  /** A single regular expression selects the lines it matches somewhere, and becomes the last used. With none used yet
      an empty one is an error. */
  lemma RegexMeans(env: Env, cmds: seq<Command>, i: nat, st: State)
    requires i < |cmds| && FlagsValid(cmds, st.flags) && cmds[i].a1.Regex? && cmds[i].a2.NoAddress?
    ensures
      var used := Used(cmds[i].re1, st);
      SedExec.Selected(env, cmds, i, st) ==
      if used.None? then None else Some((|env.find(used.value, st.ps)| > 0, st.(lastRx := used)))
  {
  }

  /** A range is looked at with its second address when it is open, and with its first when it is not: only the regular
      expression that is looked for becomes the last used, and only the range's own state changes. */
  lemma RangeMeans(env: Env, cmds: seq<Command>, i: nat, st: State)
    requires i < |cmds| && FlagsValid(cmds, st.flags) && !cmds[i].a1.NoAddress? && !cmds[i].a2.NoAddress?
    ensures
      var c, f, r := cmds[i], st.flags[i], SedExec.Selected(env, cmds, i, st);
      var a, re := if f.active then c.a2 else c.a1, if f.active then c.re2 else c.re1;
      var used := if a.Regex? then Used(re, st) else st.lastRx;
      (r.None? <==> a.Regex? && used.None?) &&
      (r.Some? ==>
        var (sel, d) := r.value;
        var has := a.Regex? && |env.find(used.value, st.ps)| > 0;
        && d == st.(lastRx := used, flags := d.flags) && d.flags == st.flags[i := d.flags[i]]
        && (sel, d.flags[i]) == Select(c.a1, c.a2, f, Seen(st.line, st.input == [], has, has)))
  {
    OthersDoNotLook(cmds[i].a1, cmds[i].a2, st.flags[i], st);
  }

  /** Only a regular expression looks at what it matches. */
  lemma OthersDoNotLook(a1: Address, a2: Address, f: Flag, st: State)
    requires FlagValid(a2, f)
    ensures !f.active && !a1.Regex? ==>
      Select(a1, a2, f, st.Seen(true, true)) == Select(a1, a2, f, st.Seen(false, false))
  {
  }
}
