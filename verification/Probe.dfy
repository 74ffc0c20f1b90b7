/** The probe's hand-over of the terminal's input (progressive/progressive.go): what was read besides the
    answers, and the read still waiting, reach whoever reads next, in order and once. */
module Probe {
  import opened Wrappers
  import opened EventFilter

  // ---- cutting the answers out ----

  const CAPS_REPLY: Bytes := [ESC, ']', '7', '3', '3', '7', ';', 'c', 'a', 'p', 's', ';']
  const KITTY_REPLY: Bytes := [ESC, '_', 'G', 'i', '=', '3', '1', ';']
  const XT_REPLY: Bytes := [ESC, 'P', '>', '|']
  const DA1_REPLY: Bytes := [ESC, '[', '?']

  /** The first place at or after i where pat starts. */
  function Find(b: Bytes, pat: Bytes, i: nat): (r: Option<nat>)
    ensures r.Some? ==> i <= r.value && r.value + |pat| <= |b| && b[r.value..r.value + |pat|] == pat
    decreases |b| - i
  {
    if i + |pat| > |b| then None else if b[i..i + |pat|] == pat then Some(i) else Find(b, pat, i + 1)
  }

  /** A stretch of b from..to. */
  datatype Span = Span(from: nat, to: nat)

  function CutOut(b: Bytes, s: Span): Bytes
    requires s.from <= s.to <= |b|
  {
    b[..s.from] + b[s.to..]
  }

  /** The string that starts with head, with its end: absent, not all there yet, or where it is. */
  datatype Found = Absent | Part | Whole(span: Span)

  function FindString(b: Bytes, head: Bytes): (r: Found)
    ensures r.Whole? ==> r.span.from + |head| < r.span.to <= |b|
    ensures r.Whole? ==> head <= b[r.span.from..r.span.to]
  {
    match Find(b, head, 0)
    case None => Absent
    case Some(i) =>
      match TerminatorFrom(b[i + |head|..], 0)
      case None => Part
      case Some((end, n)) => Whole(Span(i, i + |head| + end + n))
  }

  predicate Attribute(c: char) {
    '0' <= c <= '9' || c == ';'
  }

  function SkipAttributes(b: Bytes, j: nat): (r: nat)
    requires j <= |b|
    ensures j <= r <= |b| && (r < |b| ==> !Attribute(b[r]))
    ensures forall k :: j <= k < r ==> Attribute(b[k])
    decreases |b| - j
  {
    if j < |b| && Attribute(b[j]) then SkipAttributes(b, j + 1) else j
  }

  /** The DA1 reply, looked for from place i, where ESC [ ? is. */
  function FindDA1(b: Bytes, i: nat): (r: Option<Span>)
    requires i + |DA1_REPLY| <= |b| && b[i..i + |DA1_REPLY|] == DA1_REPLY
    ensures r.Some? ==> i <= r.value.from && r.value.from + 3 < r.value.to <= |b| && IsDA1(b[r.value.from..r.value.to])
    decreases |b| - i
  {
    var j := SkipAttributes(b, i + 3);
    if j == |b| then None
    else if b[j] == 'c' then
      assert b[i..j + 1][..3] == b[i..i + 3];
      Some(Span(i, j + 1))
    else
      match Find(b, DA1_REPLY, j)
      case None => None
      case Some(k) => FindDA1(b, k)
  }

  predicate IsDA1(s: Bytes) {
    |s| > 3 && s[..3] == DA1_REPLY && s[|s| - 1] == 'c' && forall k :: 3 <= k < |s| - 1 ==> Attribute(s[k])
  }

  function FromHere(b: Bytes, i: Option<nat>): Option<Span>
    requires i.Some? ==> i.value + 3 <= |b| && b[i.value..i.value + 3] == DA1_REPLY
  {
    match i case None => None case Some(k) => FindDA1(b, k)
  }

  lemma SkippedTo(b: Bytes, i: nat, j: nat)
    requires i + 3 <= j <= |b| && b[i..i + 3] == DA1_REPLY && (j < |b| ==> !Attribute(b[j]))
    requires SkipAttributes(b, i + 3) == SkipAttributes(b, j)
    ensures FindDA1(b, i) ==
      if j == |b| then None
      else if b[j] == 'c' then Some(Span(i, j + 1))
      else FromHere(b, Find(b, DA1_REPLY, j))
  {
    hide Find, IsDA1;
  }

  /** cutDA1's loop. */
  method CutDA1(b: Bytes) returns (r: Option<Span>)
    ensures r == match Find(b, DA1_REPLY, 0) case None => None case Some(i) => FindDA1(b, i)
  {
    hide Find, FindDA1, IsDA1, Attribute;
    var i := Find(b, DA1_REPLY, 0);
    while i.Some?
      invariant i.Some? ==> i.value + 3 <= |b| && b[i.value..i.value + 3] == DA1_REPLY
      invariant FromHere(b, Find(b, DA1_REPLY, 0)) == FromHere(b, i)
      decreases if i.Some? then |b| - i.value else -1
    {
      var j := i.value + 3;
      while j < |b| && Attribute(b[j])
        invariant i.value + 3 <= j <= |b| && SkipAttributes(b, i.value + 3) == SkipAttributes(b, j)
      {
        j := j + 1;
      }
      SkippedTo(b, i.value, j);
      if j == |b| {
        return None;
      }
      if b[j] == 'c' {
        return Some(Span(i.value, j + 1));
      }
      i := Find(b, DA1_REPLY, j);
    }
    return None;
  }

  /** An answer cut out of b, if it is whole; None while it is still arriving. */
  function Cut(b: Bytes, f: Found): (r: Option<Bytes>)
    requires f.Whole? ==> f.span.from <= f.span.to <= |b|
  {
    match f case Absent => Some(b) case Part => None case Whole(s) => Some(CutOut(b, s))
  }

  /** scan: None until the DA1 reply is in and every answer before it is whole; then what was none of them. */
  function Scan(b0: Bytes): Option<Bytes> {
    match Cut(b0, FindString(b0, CAPS_REPLY))
    case None => None
    case Some(b1) =>
      match Cut(b1, FindString(b1, KITTY_REPLY))
      case None => None
      case Some(b2) =>
        match Cut(b2, FindString(b2, XT_REPLY))
        case None => None
        case Some(b3) =>
          match Find(b3, DA1_REPLY, 0)
          case None => None
          case Some(i) => match FindDA1(b3, i) case None => None case Some(s) => Some(CutOut(b3, s))
  }

  /** Putting piece back at place i of b. */
  function PutBack(b: Bytes, i: nat, piece: Bytes): Bytes
    requires i <= |b|
  {
    b[..i] + piece + b[i..]
  }

  lemma CutIsPutBack(b: Bytes, s: Span)
    requires s.from <= s.to <= |b|
    ensures s.from <= |CutOut(b, s)| && PutBack(CutOut(b, s), s.from, b[s.from..s.to]) == b
  {
  }

  /** An answer that was taken out at a place: one that starts as it should, or nothing. */
  ghost predicate TakenOut(before: Bytes, after: Bytes, head: Bytes) {
    before == after ||
    exists i: nat, piece :: i <= |after| && before == PutBack(after, i, piece) && head <= piece && |head| < |piece|
  }

  /** What scan leaves is the input with at most one caps, one kitty and one XTVERSION answer and then exactly
      one DA1 reply taken out; every other byte stays, in order. */
  lemma ScanTakesOnlyAnswers(b0: Bytes) returns (b1: Bytes, b2: Bytes, b3: Bytes)
    requires Scan(b0).Some?
    ensures TakenOut(b0, b1, CAPS_REPLY) && TakenOut(b1, b2, KITTY_REPLY) && TakenOut(b2, b3, XT_REPLY)
    ensures exists i: nat, piece :: i <= |Scan(b0).value| && IsDA1(piece) && b3 == PutBack(Scan(b0).value, i, piece)
  {
    hide TakenOut, Cut, FindString, Find, FindDA1, IsDA1, PutBack, CutOut;
    b1 := TakesOne(b0, CAPS_REPLY);
    b2 := TakesOne(b1, KITTY_REPLY);
    b3 := TakesOne(b2, XT_REPLY);
    TakesDA1(b3, Find(b3, DA1_REPLY, 0).value);
  }

  lemma TakesDA1(b: Bytes, i: nat)
    requires Find(b, DA1_REPLY, 0) == Some(i) && FindDA1(b, i).Some?
    ensures
      var rest := CutOut(b, FindDA1(b, i).value);
      exists k: nat, piece :: k <= |rest| && IsDA1(piece) && b == PutBack(rest, k, piece)
  {
    var s := FindDA1(b, i).value;
    CutIsPutBack(b, s);
  }

  lemma TakesOne(b: Bytes, head: Bytes) returns (after: Bytes)
    requires Cut(b, FindString(b, head)).Some?
    ensures Cut(b, FindString(b, head)) == Some(after) && TakenOut(b, after, head)
  {
    var f := FindString(b, head);
    after := Cut(b, f).value;
    if f.Whole? {
      CutIsPutBack(b, f.span);
    }
  }

  // ---- the two processes ----

  /** The pump: about to look whether to stop, in a read, handing over what it read, having handed it over, and
      finished, its channel closed. */
  datatype Pump = Checking | Reading | Sending(c: Chunk) | Sent(err: bool) | Finished

  /** The probe: still waiting for answers, about to stop the pump, or over. */
  datatype Phase = Probing | Stopping | Over

  /** coming is what the terminal has not given yet; slot is the channel. buf, failed and done are the fields of
      after; delivered is what its Read has returned. */
  datatype State = State(
    coming: Bytes, pump: Pump, slot: Option<Chunk>, stop: bool, phase: Phase,
    buf: Bytes, failed: bool, done: bool, delivered: Bytes)
  {
    predicate Closed() { pump == Finished }

    /** after.Read waits for the channel. */
    predicate Waiting() { phase == Over && buf == "" && !failed && !done }
  }

  function Begin(input: Bytes): State {
    State(input, Checking, None, false, Probing, "", false, false, "")
  }

  /** One step of either process. A read gives any number of bytes, and may fail then, wherever the input is. */
  datatype Step =
    | PumpChecks | PumpReads(n: nat, err: bool) | PumpSends | PumpGoesOn
    | ProbeReceives | ProbeStops | ProbeTimesOut | ProbeFindsClosed
    | ReadReceives | ReadFindsClosed | ReadTakes(n: nat) | ReadDirect(n: nat, err: bool)

  predicate Enabled(s: State, step: Step) {
    match step
    case PumpChecks => s.pump == Checking
    case PumpReads(n, _) => s.pump == Reading && n <= |s.coming|
    case PumpSends => s.pump.Sending? && s.slot.None?
    case PumpGoesOn => s.pump.Sent?
    case ProbeReceives => s.phase == Probing && s.slot.Some?
    case ProbeStops => s.phase == Stopping
    case ProbeTimesOut => s.phase == Probing
    case ProbeFindsClosed => s.phase == Probing && s.slot.None? && s.Closed()
    case ReadReceives => s.Waiting() && s.slot.Some?
    case ReadFindsClosed => s.Waiting() && s.slot.None? && s.Closed()
    case ReadTakes(n) => s.phase == Over && s.buf != "" && n <= |s.buf|
    case ReadDirect(n, _) => s.phase == Over && s.buf == "" && !s.failed && s.done && n <= |s.coming|
  }

  function After(s: State, step: Step): State
    requires Enabled(s, step)
  {
    match step
    case PumpChecks => s.(pump := if s.stop then Finished else Reading)
    case PumpReads(n, err) => s.(pump := Sending(Chunk(s.coming[..n], err)), coming := s.coming[n..])
    case PumpSends => s.(slot := Some(s.pump.c), pump := Sent(s.pump.c.err))
    case PumpGoesOn => s.(pump := if s.pump.err then Finished else Checking)
    case ProbeReceives =>
      var buf := s.buf + s.slot.value.b;
      match Scan(buf) {
        case Some(rest) => s.(slot := None, buf := rest, phase := Stopping)
        case None =>
          var err := s.slot.value.err;
          s.(slot := None, buf := buf, failed := err, phase := if err then Stopping else Probing)
      }
    case ProbeStops => s.(stop := true, phase := Over)
    case ProbeTimesOut => s.(stop := true, phase := Over)
    case ProbeFindsClosed => s.(phase := Over)
    case ReadReceives => s.(slot := None, buf := s.slot.value.b, failed := s.slot.value.err)
    case ReadFindsClosed => s.(done := true)
    case ReadTakes(n) => s.(buf := s.buf[n..], delivered := s.delivered + s.buf[..n])
    case ReadDirect(n, err) => s.(coming := s.coming[n..], delivered := s.delivered + s.coming[..n])
  }

  /** What is on its way: in the channel, in the pump's hands, and not read yet. */
  function OnTheWay(s: State): Bytes {
    (if s.slot.Some? then s.slot.value.b else "") + ((if s.pump.Sending? then s.pump.c.b else "") + s.coming)
  }

  /** The bytes the reader gets in all: the terminal's, or those with the answers in the first n scanned out. */
  ghost predicate Expected(input: Bytes, expected: Bytes) {
    expected == input ||
    exists n: nat :: n <= |input| && Scan(input[..n]).Some? && expected == Scan(input[..n]).value + input[n..]
  }

  /** What holds between any two steps. */
  ghost predicate Inv(s: State, input: Bytes, expected: Bytes) {
    && Expected(input, expected)
    && expected == s.delivered + (s.buf + OnTheWay(s))
    && (s.phase == Probing ==> expected == input && s.delivered == "" && !s.failed && !s.done)
    && (s.phase == Stopping ==> s.delivered == "" && !s.done)
    && (s.done ==> s.Closed() && s.slot.None?)
    && (s.failed ==> s.slot.None? && (s.pump == Sent(true) || s.pump == Finished))
    && (s.slot.Some? && s.slot.value.err ==> s.pump == Sent(true) || s.pump == Finished)
    && (s.pump == Sent(true) && s.phase == Probing ==> s.slot.Some? && s.slot.value.err)
    && (s.pump == Finished && s.phase == Probing ==> s.slot.Some? && s.slot.value.err)
    && (s.stop <==> s.phase == Over)
  }

  /** The expected bytes after a step: the answers go when the probe finds them all. */
  function ExpectedAfter(s: State, step: Step, expected: Bytes): Bytes
    requires Enabled(s, step)
  {
    if step.ProbeReceives? && Scan(s.buf + s.slot.value.b).Some?
    then Scan(s.buf + s.slot.value.b).value + OnTheWay(s.(slot := None))
    else expected
  }

  lemma BeginInv(input: Bytes)
    ensures Inv(Begin(input), input, input)
  {
    assert "" + ("" + ("" + ("" + input))) == input;
  }

  lemma Split(b: Bytes, n: nat)
    requires n <= |b|
    ensures b[..n] + b[n..] == b
  {
  }

  /** The probe's steps keep the invariant. */
  lemma ProbeKeeps(s: State, step: Step, input: Bytes, expected: Bytes)
    requires Inv(s, input, expected) && Enabled(s, step)
    requires step.ProbeReceives? || step.ProbeStops? || step.ProbeTimesOut? || step.ProbeFindsClosed?
    ensures Inv(After(s, step), input, ExpectedAfter(s, step, expected))
  {
    hide Scan;
    if step.ProbeReceives? {
      var rest := OnTheWay(s.(slot := None));
      var buf := s.buf + s.slot.value.b;
      assert OnTheWay(s) == s.slot.value.b + rest by { assert "" + rest == rest; }
      assert "" + (s.buf + OnTheWay(s)) == buf + rest;
      assert input == buf + rest && input[..|buf|] == buf && input[|buf|..] == rest;
      if Scan(buf).Some? {
        assert "" + (Scan(buf).value + rest) == Scan(buf).value + rest;
      } else {
        assert "" + (buf + rest) == buf + rest;
      }
    }
  }

  lemma PumpKeeps(s: State, step: Step, input: Bytes, expected: Bytes)
    requires Inv(s, input, expected) && Enabled(s, step)
    requires step.PumpChecks? || step.PumpReads? || step.PumpSends? || step.PumpGoesOn?
    ensures Inv(After(s, step), input, expected)
  {
    hide Scan, Expected;
    PumpMoves(s, step);
  }

  lemma PumpMoves(s: State, step: Step)
    requires Enabled(s, step) && (step.PumpChecks? || step.PumpReads? || step.PumpSends? || step.PumpGoesOn?)
    ensures OnTheWay(After(s, step)) == OnTheWay(s)
  {
    if step.PumpReads? {
      Split(s.coming, step.n);
      assert "" + s.coming == s.coming;
    } else if step.PumpSends? {
      assert "" + (s.pump.c.b + s.coming) == s.pump.c.b + ("" + s.coming);
    }
  }

  lemma ReadKeeps(s: State, step: Step, input: Bytes, expected: Bytes)
    requires Inv(s, input, expected) && Enabled(s, step)
    requires step.ReadReceives? || step.ReadFindsClosed? || step.ReadTakes? || step.ReadDirect?
    ensures Inv(After(s, step), input, expected)
  {
    hide Scan, Expected;
    match step
    case ReadReceives =>
      var rest := OnTheWay(s.(slot := None));
      assert OnTheWay(s) == s.slot.value.b + rest by { assert "" + rest == rest; }
      assert "" + OnTheWay(s) == OnTheWay(s);
    case ReadTakes(n) =>
      Split(s.buf, n);
      Assoc(s.delivered, s.buf[..n], s.buf[n..] + OnTheWay(s));
      Assoc(s.buf[..n], s.buf[n..], OnTheWay(s));
    case ReadDirect(n, _) =>
      Split(s.coming, n);
      Assoc(s.delivered, s.coming[..n], s.coming[n..]);
      assert "" + ("" + ("" + s.coming)) == s.coming && "" + ("" + ("" + s.coming[n..])) == s.coming[n..];
    case ReadFindsClosed =>
  }

  lemma StepKeeps(s: State, step: Step, input: Bytes, expected: Bytes)
    requires Inv(s, input, expected) && Enabled(s, step)
    ensures Inv(After(s, step), input, ExpectedAfter(s, step, expected))
  {
    hide Inv, After, Enabled, Scan;
    match step
    case PumpChecks => PumpKeeps(s, step, input, expected);
    case PumpReads(_, _) => PumpKeeps(s, step, input, expected);
    case PumpSends => PumpKeeps(s, step, input, expected);
    case PumpGoesOn => PumpKeeps(s, step, input, expected);
    case ProbeReceives => ProbeKeeps(s, step, input, expected);
    case ProbeStops => ProbeKeeps(s, step, input, expected);
    case ProbeTimesOut => ProbeKeeps(s, step, input, expected);
    case ProbeFindsClosed => ProbeKeeps(s, step, input, expected);
    case ReadReceives => ReadKeeps(s, step, input, expected);
    case ReadFindsClosed => ReadKeeps(s, step, input, expected);
    case ReadTakes(_) => ReadKeeps(s, step, input, expected);
    case ReadDirect(_, _) => ReadKeeps(s, step, input, expected);
  }

  /** Any interleaving of the steps. */
  ghost predicate Run(s: State, steps: seq<Step>, last: State)
    decreases |steps|
  {
    if steps == [] then last == s else Enabled(s, steps[0]) && Run(After(s, steps[0]), steps[1..], last)
  }

  lemma {:induction false} RunKeeps(s: State, steps: seq<Step>, last: State, input: Bytes,
        expected: Bytes) returns (expected': Bytes)
    requires Inv(s, input, expected) && Run(s, steps, last)
    ensures Inv(last, input, expected')
    decreases |steps|
  {
    hide Inv, After, Enabled, Scan;
    if steps == [] {
      return expected;
    }
    StepKeeps(s, steps[0], input, expected);
    expected' := RunKeeps(After(s, steps[0]), steps[1..], last, input, ExpectedAfter(s, steps[0], expected));
  }

  /** The buffers the probe scans, in order. */
  function Scanned(s: State, steps: seq<Step>): seq<Bytes>
    decreases |steps|
  {
    if steps == [] || !Enabled(s, steps[0]) then []
    else
      (if steps[0].ProbeReceives? then [s.buf + s.slot.value.b] else []) + Scanned(After(s, steps[0]), steps[1..])
  }

  ghost predicate NoneWhole(bufs: seq<Bytes>) {
    forall b :: b in bufs ==> Scan(b) == None
  }

  /** The bytes the reader gets: those of the terminal when no buffer that was scanned had all the answers; otherwise
      the last one that was scanned had them, and they are out of it. */
  ghost predicate Outcome(input: Bytes, bufs: seq<Bytes>, expected: Bytes) {
    if NoneWhole(bufs) then expected == input
    else
      var b := bufs[|bufs| - 1];
      b <= input && Scan(b).Some? && expected == Scan(b).value + input[|b|..] && NoneWhole(bufs[..|bufs| - 1])
  }

  lemma {:induction false} NothingScanned(s: State, steps: seq<Step>)
    requires s.phase != Probing
    ensures Scanned(s, steps) == []
    decreases |steps|
  {
    if steps != [] && Enabled(s, steps[0]) {
      NothingScanned(After(s, steps[0]), steps[1..]);
    }
  }

  lemma {:induction false} RunOutcome(s: State, steps: seq<Step>, last: State, input: Bytes, expected: Bytes)
    returns (expected': Bytes)
    requires Inv(s, input, expected) && Run(s, steps, last)
    ensures Inv(last, input, expected')
    ensures if s.phase == Probing then Outcome(input, Scanned(s, steps), expected') else expected' == expected
    decreases |steps|
  {
    hide Inv, After, Enabled, Scan;
    if s.phase != Probing {
      NothingScanned(s, steps);
    }
    if steps == [] {
      InvProbing(s, input, expected);
      return expected;
    }
    var s', e := After(s, steps[0]), ExpectedAfter(s, steps[0], expected);
    StepKeeps(s, steps[0], input, expected);
    PhaseAfter(s, steps[0], expected);
    if steps[0].ProbeReceives? {
      ReceivedIsStart(s, input, expected);
    }
    expected' := RunOutcome(s', steps[1..], last, input, e);
    if s.phase == Probing {
      InvProbing(s, input, expected);
      if s'.phase != Probing {
        NothingScanned(s', steps[1..]);
      }
      if steps[0].ProbeReceives? {
        OutcomeMore(input, s.buf + s.slot.value.b, Scanned(s', steps[1..]), expected', s'.phase == Probing);
      } else {
        assert [] + Scanned(s', steps[1..]) == Scanned(s', steps[1..]);
      }
    }
  }

  lemma InvProbing(s: State, input: Bytes, expected: Bytes)
    requires Inv(s, input, expected)
    ensures s.phase == Probing ==> expected == input
  {
    hide Expected, Scan;
  }

  /** The probe goes on as long as it does not find all the answers, and does not begin again. */
  lemma PhaseAfter(s: State, step: Step, expected: Bytes)
    requires Enabled(s, step)
    ensures s.phase != Probing ==> After(s, step).phase != Probing && !step.ProbeReceives?
    ensures step.ProbeReceives? && Scan(s.buf + s.slot.value.b).Some? ==> After(s, step).phase != Probing
    ensures ExpectedAfter(s, step, expected) ==
      if step.ProbeReceives? && Scan(s.buf + s.slot.value.b).Some?
      then Scan(s.buf + s.slot.value.b).value + OnTheWay(s.(slot := None)) else expected
  {
    hide Scan;
  }

  lemma ReceivedIsStart(s: State, input: Bytes, expected: Bytes)
    requires Inv(s, input, expected) && Enabled(s, ProbeReceives)
    ensures s.slot.Some?
    ensures
      var b := s.buf + s.slot.value.b;
      b <= input && OnTheWay(s.(slot := None)) == input[|b|..]
  {
    hide Expected, Scan;
    var rest := OnTheWay(s.(slot := None));
    assert "" + rest == rest && OnTheWay(s) == s.slot.value.b + rest;
    Assoc(s.buf, s.slot.value.b, rest);
    assert "" + (s.buf + OnTheWay(s)) == s.buf + OnTheWay(s);
  }

  lemma OutcomeMore(input: Bytes, b: Bytes, more: seq<Bytes>, expected: Bytes, goesOn: bool)
    requires b <= input
    requires if Scan(b).Some? then more == [] && expected == Scan(b).value + input[|b|..]
             else if goesOn then Outcome(input, more, expected) else more == [] && expected == input
    ensures Outcome(input, [b] + more, expected)
  {
    hide Scan;
    var all := [b] + more;
    assert b == all[0];
    if more == [] {
      assert all == [b] && all[..0] == [];
    } else {
      assert all[|all| - 1] == more[|more| - 1] && all[..|all| - 1] == [b] + more[..|more| - 1];
      assert forall x :: x in more ==> x in all;
    }
  }

  /** In every interleaving, what has been read through after is a prefix of the terminal's bytes, in order, none lost
      or repeated, with the answers taken out exactly when a buffer that the probe scanned had all of them; once the
      reader is told of a failed read, or reads the terminal itself, only what the terminal has yet to give is missing;
      and the probe never finds the channel closed. */
  lemma HandsEverythingOver(input: Bytes, steps: seq<Step>, last: State) returns (expected: Bytes)
    requires Run(Begin(input), steps, last)
    ensures Outcome(input, Scanned(Begin(input), steps), expected) && last.delivered <= expected
    ensures last.phase == Over && last.buf == "" && (last.failed || last.done) ==>
      last.delivered + last.coming == expected
    ensures !Enabled(last, ProbeFindsClosed)
    ensures forall n, err :: Enabled(last, ReadDirect(n, err)) ==> last.pump == Finished && last.slot.None?
  {
    hide Scan, Expected, Run, Outcome, Scanned;
    BeginInv(input);
    expected := RunOutcome(Begin(input), steps, last, input, input);
    assert "" + ("" + ("" + last.coming)) == last.coming;
  }

  // ---- a waiting reader ----

  /** A step of the pump, or of the reader waiting for it. */
  predicate Moves(step: Step) {
    step.PumpChecks? || step.PumpReads? || step.PumpSends? || step.PumpGoesOn? || step.ReadReceives? ||
    step.ReadFindsClosed?
  }

  function Left(pump: Pump): nat {
    match pump
    case Reading => 4
    case Sending(_) => 3
    case Sent(_) => 2
    case Checking => 1
    case Finished => 0
  }

  /** The most such steps there still are when the probe is over. */
  function Work(s: State): nat {
    2 * Left(s.pump) + (if s.slot.Some? then 1 else 0) + (if s.done then 0 else 1)
  }

  function MovesIn(steps: seq<Step>): nat {
    if steps == [] then 0 else (if Moves(steps[0]) then 1 else 0) + MovesIn(steps[1..])
  }

  function ReadsIn(steps: seq<Step>): nat {
    if steps == [] then 0 else (if steps[0].PumpReads? then 1 else 0) + ReadsIn(steps[1..])
  }

  lemma MoveWorks(s: State, step: Step)
    requires Enabled(s, step) && s.phase == Over && s.stop
    ensures After(s, step).phase == Over && After(s, step).stop
    ensures Work(After(s, step)) + (if Moves(step) then 1 else 0) <= Work(s)
    ensures s.pump == Reading || (!step.PumpReads? && After(s, step).pump != Reading)
    ensures step.PumpReads? ==> After(s, step).pump != Reading
  {
  }

  lemma {:induction false} FewMoves(s: State, steps: seq<Step>, last: State)
    requires Run(s, steps, last) && s.phase == Over && s.stop
    ensures MovesIn(steps) + Work(last) <= Work(s) && ReadsIn(steps) <= if s.pump == Reading then 1 else 0
    decreases |steps|
  {
    hide After, Enabled, Work;
    if steps != [] {
      MoveWorks(s, steps[0]);
      FewMoves(After(s, steps[0]), steps[1..], last);
    }
  }

  /** When the probe is over, the pump takes at most the one read it is in from the terminal, and it and a reader
      waiting for it make ten steps at most; as long as a reader waits there is such a step to make. */
  lemma NeverStuck(input: Bytes, before: seq<Step>, s: State, steps: seq<Step>, last: State)
    requires Run(Begin(input), before, s) && s.phase == Over && Run(s, steps, last)
    ensures ReadsIn(steps) <= if s.pump == Reading then 1 else 0
    ensures MovesIn(steps) <= 10
    ensures last.Waiting() ==> exists step :: Moves(step) && Enabled(last, step)
  {
    hide Run;
    BeginInv(input);
    var expected := RunKeeps(Begin(input), before, s, input, input);
    FewMoves(s, steps, last);
    if last.Waiting() {
      var step := match last.pump
        case Checking => PumpChecks
        case Reading => PumpReads(|last.coming|, false)
        case Sending(_) => if last.slot.Some? then ReadReceives else PumpSends
        case Sent(_) => PumpGoesOn
        case Finished => if last.slot.Some? then ReadReceives else ReadFindsClosed;
      assert Moves(step) && Enabled(last, step);
    }
  }

  /** Nobody is ever kept from what there is to do: a probe that waits may be out of time, one that has its answers
      stops the pump, the pump reads what comes, in any amount and failing or not, and hands it over when there is
      room, and a read takes any amount of what is held, or when the pump is done of what the terminal gives. */
  lemma WhatCanBeDone(s: State)
    ensures s.phase == Probing ==> Enabled(s, ProbeTimesOut) && (s.slot.Some? ==> Enabled(s, ProbeReceives))
    ensures s.phase == Stopping ==> Enabled(s, ProbeStops)
    ensures s.pump == Checking ==> Enabled(s, PumpChecks)
    ensures s.pump == Reading ==> forall n: nat, err :: n <= |s.coming| ==> Enabled(s, PumpReads(n, err))
    ensures s.pump.Sending? && s.slot == None ==> Enabled(s, PumpSends)
    ensures s.pump.Sent? ==> Enabled(s, PumpGoesOn)
    ensures s.phase == Over && s.buf != "" ==> forall n: nat :: n <= |s.buf| ==> Enabled(s, ReadTakes(n))
    ensures s.phase == Over && s.buf == "" && !s.failed ==>
      if s.done then forall n: nat, err :: n <= |s.coming| ==> Enabled(s, ReadDirect(n, err))
      else
        && (s.slot.Some? ==> Enabled(s, ReadReceives))
        && (s.slot == None && s.pump == Finished ==> Enabled(s, ReadFindsClosed))
  {
  }

  // ---- failures ----

  /** A read of the pump's failed, and nobody has been told. */
  predicate FailureKept(s: State) {
    s.failed || (s.slot.Some? && s.slot.value.err) || (s.pump.Sending? && s.pump.c.err)
  }

  /** The probe finds its answers in the very chunk whose read failed. */
  predicate AnsweredAtLast(s: State, step: Step) {
    step.ProbeReceives? && s.slot.Some? && s.slot.value.err && Scan(s.buf + s.slot.value.b).Some?
  }

  /** A failure of a read is kept for whoever reads next, and is dropped by one step exactly: when the chunk that came
      with it completes the answers. */
  lemma FailureIsKept(s: State, step: Step, input: Bytes, expected: Bytes)
    requires Inv(s, input, expected) && Enabled(s, step)
    ensures FailureKept(s) || (step.PumpReads? && step.err) ==>
      (FailureKept(After(s, step)) <==> !AnsweredAtLast(s, step))
    ensures !FailureKept(s) && !(step.PumpReads? && step.err) ==> !FailureKept(After(s, step))
  {
    hide Scan, Expected;
  }

  predicate NoneAnsweredAtLast(s: State, steps: seq<Step>)
    decreases |steps|
  {
    steps == [] || !Enabled(s, steps[0]) ||
    (!AnsweredAtLast(s, steps[0]) && NoneAnsweredAtLast(After(s, steps[0]), steps[1..]))
  }

  /** So a reader is told of a failure in every run but for that: a waiting one receives it, or the pump still has it to
      hand over. */
  lemma {:induction false} FailureIsTold(s: State, steps: seq<Step>, last: State, input: Bytes, expected: Bytes)
    requires Inv(s, input, expected) && Run(s, steps, last) && FailureKept(s) && NoneAnsweredAtLast(s, steps)
    ensures FailureKept(last) && (last.failed || !last.done)
    decreases |steps|
  {
    hide Inv, After, Enabled, Scan, FailureKept, AnsweredAtLast;
    if steps == [] {
      NotDoneYet(s, input, expected);
    } else {
      StepKeeps(s, steps[0], input, expected);
      FailureIsKept(s, steps[0], input, expected);
      FailureIsTold(After(s, steps[0]), steps[1..], last, input, ExpectedAfter(s, steps[0], expected));
    }
  }

  lemma NotDoneYet(s: State, input: Bytes, expected: Bytes)
    requires Inv(s, input, expected) && FailureKept(s)
    ensures s.failed || !s.done
  {
    hide Scan, Expected;
  }
}
