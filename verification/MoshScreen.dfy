/** The mosh screen tracker (shell/mosh/screen.go): numbered screen states rebuilt from diffs that may be
    resent, lost or out of order.

    Emulators and framebuffers belong to libraries and are kept abstract; Laws says what is assumed of them. */
module MoshScreen {
  import opened Wrappers

  type Bytes = seq<bv8>

  /** The emulator (E) and framebuffer (F) operations the tracker uses. */
  datatype Ops<!E, !F> = Ops(
    blank: (nat, nat) -> E,
    write: (E, Bytes) -> E,
    snapshot: E -> F,
    diff: (F, Option<F>) -> Bytes,
    decode: Bytes -> Option<seq<Bytes>>)

  /** Writing in pieces is writing at once; a full diff draws a frame on any screen, and a diff between two
      frames leads from one to the other. */
  ghost predicate Laws<E(!new), F(!new)>(ops: Ops<E, F>) {
    && (forall e, a, b :: ops.write(e, a + b) == ops.write(ops.write(e, a), b))
    && (forall e, f :: ops.snapshot(ops.write(e, ops.diff(f, None))) == f)
    && (forall e, f :: ops.snapshot(ops.write(e, ops.diff(f, Some(ops.snapshot(e))))) == f)
  }

  /** A diff as it arrives. */
  datatype Message = Message(diff: Bytes, oldNum: nat, newNum: nat, throwaway: nat)

  function WriteAll<E, F>(ops: Ops<E, F>, e: E, strings: seq<Bytes>): E
    decreases |strings|
  {
    if strings == [] then e
    else WriteAll(ops, if |strings[0]| > 0 then ops.write(e, strings[0]) else e, strings[1..])
  }

  /** The server's diff between its states oldNum and newNum: it decodes, and on any emulator that shows the
      one it leads to the other. */
  ghost predicate Genuine<E(!new), F(!new)>(ops: Ops<E, F>, truth: nat -> F, m: Message) {
    ops.decode(m.diff).Some? &&
    forall e :: ops.snapshot(e) == truth(m.oldNum) ==>
      ops.snapshot(WriteAll(ops, e, ops.decode(m.diff).value)) == truth(m.newNum)
  }

  datatype State<E, F> = State(
    cols: nat, rows: nat, shadow: E, shadowNum: nat, states: map<nat, F>, latest: nat, displayed: Option<F>, out: Bytes)
  {
    /** The base of a diff is there: kept, or what the shadow holds. */
    predicate Holds(oldNum: nat) {
      oldNum in states || oldNum == shadowNum
    }
  }

  function New<E, F>(ops: Ops<E, F>, cols: nat, rows: nat): State<E, F> {
    State(cols, rows, ops.blank(cols, rows), 0, map[], 0, None, [])
  }

  /** Every kept state from floor on, and the newest, is the server's of its number, and so is the shadow. */
  ghost predicate TrueFrom<E, F>(ops: Ops<E, F>, truth: nat -> F, s: State<E, F>, floor: nat) {
    && s.shadowNum <= s.latest && (s.shadowNum >= floor ==> ops.snapshot(s.shadow) == truth(s.shadowNum))
    && (forall n :: n in s.states ==> n <= s.latest && (n >= floor || n == s.latest ==> s.states[n] == truth(n)))
  }

  /** Every kept state, and the shadow, is the server's state of its number. */
  ghost predicate True<E, F>(ops: Ops<E, F>, truth: nat -> F, s: State<E, F>) {
    TrueFrom(ops, truth, s, 0)
  }

  // ---- apply ----

  /** The shadow put on the diff's base. */
  function Rebase<E, F>(ops: Ops<E, F>, s: State<E, F>, oldNum: nat): State<E, F> {
    var s := if oldNum == s.shadowNum && oldNum !in s.states
             then s.(states := s.states[oldNum := ops.snapshot(s.shadow)]) else s;
    if oldNum !in s.states then
      var e := ops.blank(s.cols, s.rows);
      s.(shadow := e, states := s.states[oldNum := ops.snapshot(e)])
    else if s.shadowNum != oldNum then
      s.(shadow := ops.write(ops.blank(s.cols, s.rows), ops.diff(s.states[oldNum], None)))
    else s
  }

  /** The state reached is kept under its number. */
  function Reach<E, F>(ops: Ops<E, F>, s: State<E, F>, strings: seq<Bytes>, newNum: nat): State<E, F> {
    var e := WriteAll(ops, s.shadow, strings);
    s.(shadow := e, shadowNum := newNum, states := s.states[newNum := ops.snapshot(e)],
       latest := if newNum > s.latest then newNum else s.latest)
  }

  function Forget<E, F>(s: State<E, F>, throwaway: nat): State<E, F> {
    s.(states := map n | n in s.states && !(n < throwaway && n != s.latest) :: s.states[n])
  }

  /** The terminal is moved to the newest state. */
  function Show<E, F>(ops: Ops<E, F>, s: State<E, F>): State<E, F> {
    if s.latest in s.states then
      s.(out := s.out + ops.diff(s.states[s.latest], s.displayed), displayed := Some(s.states[s.latest]))
    else s
  }

  function Applied<E, F>(ops: Ops<E, F>, s: State<E, F>, m: Message): State<E, F> {
    if m.newNum in s.states then s
    else
      var s := Rebase(ops, s, m.oldNum);
      match ops.decode(m.diff)
      case None => s
      case Some(strings) => Show(ops, Forget(Reach(ops, s, strings, m.newNum), m.throwaway))
  }

  class Screen<E(!new), F(!new)> {
    const ops: Ops<E, F>
    var cols: nat
    var rows: nat
    var shadow: E
    var shadowNum: nat
    var states: map<nat, F>
    var latest: nat
    var displayed: Option<F>
    var out: Bytes

    ghost function Abs(): State<E, F>
      reads this
    {
      State(cols, rows, shadow, shadowNum, states, latest, displayed, out)
    }

    constructor (ops: Ops<E, F>, cols: nat, rows: nat)
      ensures this.ops == ops && Abs() == New(ops, cols, rows)
    {
      this.ops, this.cols, this.rows := ops, cols, rows;
      shadow, shadowNum, states, latest, displayed, out := ops.blank(cols, rows), 0, map[], 0, None, [];
    }

    /** The first part of apply: the shadow is put on the diff's base. */
    method PutOnBase(oldNum: nat)
      modifies this
      ensures Abs() == Rebase(ops, old(Abs()), oldNum)
    {
      if oldNum == shadowNum {
        if oldNum !in states {
          states := states[oldNum := ops.snapshot(shadow)];
        }
      }
      if oldNum !in states {
        shadow := ops.blank(cols, rows);
        states := states[oldNum := ops.snapshot(shadow)];
      } else if shadowNum != oldNum {
        var base := states[oldNum];
        shadow := ops.blank(cols, rows);
        shadow := ops.write(shadow, ops.diff(base, None));
      }
    }

    /** apply. */
    method Apply(diff: Bytes, oldNum: nat, newNum: nat, throwaway: nat)
      modifies this
      ensures Abs() == Applied(ops, old(Abs()), Message(diff, oldNum, newNum, throwaway))
    {
      hide Rebase;
      if newNum in states {
        return;
      }
      PutOnBase(oldNum);
      ghost var based := Abs();
      var instrs := ops.decode(diff);
      if instrs.None? {
        return;
      }
      for i := 0 to |instrs.value|
        invariant Abs() == based.(shadow := shadow)
        invariant WriteAll(ops, based.shadow, instrs.value) == WriteAll(ops, shadow, instrs.value[i..])
      {
        if |instrs.value[i]| > 0 {
          shadow := ops.write(shadow, instrs.value[i]);
        }
      }
      shadowNum := newNum;
      states := states[newNum := ops.snapshot(shadow)];
      if newNum > latest {
        latest := newNum;
      }
      assert Abs() == Reach(ops, based, instrs.value, newNum);
      states := map n | n in states && !(n < throwaway && n != latest) :: states[n];
      if latest in states {
        out := out + ops.diff(states[latest], displayed);
        displayed := Some(states[latest]);
      }
    }

    method Take() returns (taken: Bytes)
      modifies this`out
      ensures taken == old(out) && Abs() == old(Abs()).(out := [])
    {
      taken := out;
      out := [];
    }

    method Resize(cols: nat, rows: nat)
      modifies this
      ensures Abs() == New(ops, cols, rows).(latest := old(latest), out := old(out))
    {
      this.cols, this.rows := cols, rows;
      shadow, shadowNum, states, displayed := ops.blank(cols, rows), 0, map[], None;
    }
  }

  // ---- what every run keeps ----

  /** What the shadow shows when it has been put on a diff's base: a blank screen when the base is not there. */
  function Base<E, F>(ops: Ops<E, F>, truth: nat -> F, s: State<E, F>, oldNum: nat): F {
    if s.Holds(oldNum) then truth(oldNum) else ops.snapshot(ops.blank(s.cols, s.rows))
  }

  /** The newest state number after a diff. */
  function Newer<E, F>(ops: Ops<E, F>, m: Message, latest: nat): nat {
    if ops.decode(m.diff).Some? && m.newNum > latest then m.newNum else latest
  }

  /** A diff the tracker can take: its state is already kept, or it is the server's and its base is there, or is
      blank on the server too; or it does not decode, and its base shows what the shadow is numbered by. */
  ghost predicate Accepts<E(!new), F(!new)>(ops: Ops<E, F>, truth: nat -> F, s: State<E, F>, m: Message) {
    || m.newNum in s.states
    || (&& Base(ops, truth, s, m.oldNum) == truth(m.oldNum)
      && (s.Holds(m.oldNum) || m.oldNum <= Newer(ops, m, s.latest))
        && if ops.decode(m.diff).Some? then Genuine(ops, truth, m) else truth(m.oldNum) == truth(s.shadowNum))
  }

  /** A diff that comes too late: from a base and to a state that the server will not use again, and not the newest.
      Its base may have been thrown away. */
  predicate Late<E, F>(ops: Ops<E, F>, s: State<E, F>, m: Message, floor: nat) {
    m.oldNum < floor && m.newNum < floor && m.oldNum <= s.latest && m.newNum <= s.latest && s.latest in s.states &&
    ops.decode(m.diff).Some?
  }

  /** The same when the states below floor may be wrong. */
  ghost predicate AcceptsFrom<E(!new), F(!new)>(ops: Ops<E, F>, truth: nat -> F, s: State<E, F>, m: Message,
        floor: nat) {
    m.newNum in s.states || Late(ops, s, m, floor) || (m.oldNum >= floor && Accepts(ops, truth, s, m))
  }

  /** Below the highest number that was thrown away nothing is asked of the states. */
  function NextFloor<E, F>(ops: Ops<E, F>, s: State<E, F>, m: Message, floor: nat): nat {
    if m.newNum !in s.states && ops.decode(m.diff).Some? && m.throwaway > floor then m.throwaway else floor
  }

  lemma RebaseShows<E(!new), F(!new)>(ops: Ops<E, F>, truth: nat -> F, s: State<E, F>, oldNum: nat, floor: nat)
    requires Laws(ops) && TrueFrom(ops, truth, s, floor)
    ensures var b := Rebase(ops, s, oldNum);
      && (oldNum >= floor ==>
        ops.snapshot(b.shadow) == b.states[oldNum] == Base(ops, truth, s, oldNum))
      && b == s.(shadow := b.shadow, states := b.states)
      && b.states.Keys == s.states.Keys + {oldNum}
      && (forall n :: n in s.states ==> b.states[n] == s.states[n]) && (s.Holds(oldNum) ==> oldNum <= s.latest)
  {
  }

  lemma LateIsTrue<E(!new), F(!new)>(ops: Ops<E, F>, truth: nat -> F, s: State<E, F>, m: Message, floor: nat)
    requires Laws(ops) && TrueFrom(ops, truth, s, floor) && m.newNum !in s.states && Late(ops, s, m, floor)
    ensures
      var r := Reach(ops, Rebase(ops, s, m.oldNum), ops.decode(m.diff).value, m.newNum);
      TrueFrom(ops, truth, r, floor) && r.latest == s.latest
  {
    hide Rebase, WriteAll, Laws;
    RebaseShows(ops, truth, s, m.oldNum, floor);
  }

  /** A diff the tracker can take keeps every state true that the server may still use, and the newest. */
  lemma AppliedIsTrue<E(!new), F(!new)>(ops: Ops<E, F>, truth: nat -> F, s: State<E, F>, m: Message, floor: nat)
    requires Laws(ops) && TrueFrom(ops, truth, s, floor) && AcceptsFrom(ops, truth, s, m, floor)
    ensures var s' := Applied(ops, s, m);
      TrueFrom(ops, truth, s', floor) && s'.latest == Newer(ops, m, s.latest)
  {
    hide Rebase, WriteAll;
    if m.newNum !in s.states {
      RebaseShows(ops, truth, s, m.oldNum, floor);
      var b := Rebase(ops, s, m.oldNum);
      if ops.decode(m.diff).Some? {
        var strings := ops.decode(m.diff).value;
        if Late(ops, s, m, floor) {
          LateIsTrue(ops, truth, s, m, floor);
        } else {
          assert ops.snapshot(WriteAll(ops, b.shadow, strings)) == truth(m.newNum);
        }
        assert TrueFrom(ops, truth, Reach(ops, b, strings, m.newNum), floor);
      }
    }
  }

  /** And no other does, of those that the server made from one of its states to a later one it still keeps, and
      of those that do not decode. */
  lemma OnlyAcceptedIsTrue<E(!new), F(!new)>(ops: Ops<E, F>, truth: nat -> F, s: State<E, F>, m: Message)
    requires Laws(ops) && True(ops, truth, s)
    requires ops.decode(m.diff).Some? ==> Genuine(ops, truth, m) && m.throwaway <= m.oldNum < m.newNum
    ensures True(ops, truth, Applied(ops, s, m)) <==> Accepts(ops, truth, s, m)
  {
    if Accepts(ops, truth, s, m) {
      AppliedIsTrue(ops, truth, s, m, 0);
    } else {
      RebaseShows(ops, truth, s, m.oldNum, 0);
      var b := Rebase(ops, s, m.oldNum);
      if ops.decode(m.diff).Some? {
        var r := Reach(ops, b, ops.decode(m.diff).value, m.newNum);
        assert m.oldNum in Forget(r, m.throwaway).states;
        assert Forget(r, m.throwaway).states[m.oldNum] == Base(ops, truth, s, m.oldNum);
      }
    }
  }

  /** The terminal, which has been sent sent and then out, shows what the tracker last moved it to, and that
      is the newest state. Before the first move and after a resize nothing is claimed. */
  ghost predicate Displayed<E, F>(ops: Ops<E, F>, truth: nat -> F, s: State<E, F>, start: E, sent: Bytes) {
    s.displayed.Some? ==>
      && ops.snapshot(ops.write(start, sent + s.out)) == s.displayed.value
      && s.latest in s.states && s.displayed.value == truth(s.latest)
  }

  /** After a diff the tracker can take the terminal shows the newest state, if it showed it before or the diff
      brings it. */
  lemma AppliedIsDisplayed<E(!new), F(!new)>(ops: Ops<E, F>, truth: nat -> F, s: State<E, F>, m: Message, start: E,
        sent: Bytes, floor: nat)
    requires Laws(ops) && TrueFrom(ops, truth, s, floor) && AcceptsFrom(ops, truth, s, m, floor)
    requires Displayed(ops, truth, s, start, sent)
    ensures var s' := Applied(ops, s, m);
      && Displayed(ops, truth, s', start, sent)
      && (s.displayed.Some? || Brings(ops, s, m) ==> s'.displayed.Some?)
  {
    hide Rebase, WriteAll;
    AppliedIsTrue(ops, truth, s, m, floor);
    if m.newNum !in s.states {
      RebaseShows(ops, truth, s, m.oldNum, floor);
      if ops.decode(m.diff).Some? {
        var r := Forget(Reach(ops, Rebase(ops, s, m.oldNum), ops.decode(m.diff).value, m.newNum), m.throwaway);
        if r.latest in r.states {
          MovesTerminal(ops, start, sent, s.out, r.states[r.latest], s.displayed);
        }
      }
    }
  }

  /** A diff that leads to a new state, the newest. */
  predicate Brings<E, F>(ops: Ops<E, F>, s: State<E, F>, m: Message) {
    m.newNum !in s.states && m.newNum >= s.latest && ops.decode(m.diff).Some?
  }

  lemma MovesTerminal<E(!new), F(!new)>(ops: Ops<E, F>, start: E, sent: Bytes, out: Bytes, f: F, from: Option<F>)
    requires Laws(ops) && (from.Some? ==> ops.snapshot(ops.write(start, sent + out)) == from.value)
    ensures ops.snapshot(ops.write(start, sent + (out + ops.diff(f, from)))) == f
  {
    var e := ops.write(start, sent + out);
    assert sent + (out + ops.diff(f, from)) == sent + out + ops.diff(f, from);
    assert from.Some? ==> from == Some(ops.snapshot(e));
  }

  /** What happens to a tracker between two resizes: a diff arrives, or the output is taken and sent. */
  datatype Event = Arrives(m: Message) | Taken

  /** The tracker after the events, and all that was sent to the terminal. */
  function Run<E, F>(ops: Ops<E, F>, s: State<E, F>, sent: Bytes, events: seq<Event>): (State<E, F>, Bytes)
    decreases |events|
  {
    if events == [] then (s, sent)
    else
      match events[0]
      case Arrives(m) => Run(ops, Applied(ops, s, m), sent, events[1..])
      case Taken => Run(ops, s.(out := []), sent + s.out, events[1..])
  }

  /** Every diff that arrives is one the tracker can take then. They may be resent, lost, late and out of order. */
  ghost predicate Taking<E(!new), F(!new)>(ops: Ops<E, F>, truth: nat -> F, s: State<E, F>, events: seq<Event>,
        floor: nat)
    decreases |events|
  {
    events == [] ||
    match events[0]
    case Arrives(m) =>
      AcceptsFrom(ops, truth, s, m, floor) &&
      Taking(ops, truth, Applied(ops, s, m), events[1..], NextFloor(ops, s, m, floor))
    case Taken => Taking(ops, truth, s.(out := []), events[1..], floor)
  }

  /** Where the floor is after the events. */
  function FloorAfter<E, F>(ops: Ops<E, F>, s: State<E, F>, events: seq<Event>, floor: nat): nat
    decreases |events|
  {
    if events == [] then floor
    else
      match events[0]
      case Arrives(m) => FloorAfter(ops, Applied(ops, s, m), events[1..], NextFloor(ops, s, m, floor))
      case Taken => FloorAfter(ops, s.(out := []), events[1..], floor)
  }

  /** The highest number among n and those of the states whose diffs were received and decode. */
  function Newest<E, F>(ops: Ops<E, F>, events: seq<Event>, n: nat): nat
    decreases |events|
  {
    if events == [] then n
    else Newest(ops, events[1..], if events[0].Arrives? then Newer(ops, events[0].m, n) else n)
  }

  lemma {:induction false} RunKeeps<E(!new), F(!new)>(ops: Ops<E, F>, truth: nat -> F, s: State<E, F>, start: E,
        sent: Bytes, events: seq<Event>, floor: nat)
    requires Laws(ops) && TrueFrom(ops, truth, s, floor) && Displayed(ops, truth, s, start, sent)
    requires Taking(ops, truth, s, events, floor)
    ensures var (s', sent') := Run(ops, s, sent, events);
      && TrueFrom(ops, truth, s', FloorAfter(ops, s, events, floor)) && Displayed(ops, truth, s', start, sent')
      && s'.latest == Newest(ops, events, s.latest) && (s.displayed.Some? ==> s'.displayed.Some?)
    decreases |events|
  {
    hide Applied, AcceptsFrom, Laws;
    if events != [] {
      match events[0]
      case Arrives(m) =>
        AppliedIsTrue(ops, truth, s, m, floor);
        AppliedIsDisplayed(ops, truth, s, m, start, sent, floor);
        RunKeeps(ops, truth, Applied(ops, s, m), start, sent, events[1..], NextFloor(ops, s, m, floor));
      case Taken =>
        assert sent + s.out + [] == sent + s.out;
        RunKeeps(ops, truth, s.(out := []), start, sent + s.out, events[1..], floor);
    }
  }

  /** However diffs are resent, lost, late and reordered, replaying everything sent and still to be sent shows the
      highest-numbered state received; and what is kept from the highest number thrown away on is true. */
  lemma ShowsTheNewest<E(!new), F(!new)>(ops: Ops<E, F>, truth: nat -> F, cols: nat, rows: nat, start: E, m: Message,
        events: seq<Event>)
    requires Laws(ops) && truth(0) == ops.snapshot(ops.blank(cols, rows))
    requires Taking(ops, truth, New(ops, cols, rows), [Arrives(m)] + events, 0) && ops.decode(m.diff).Some?
    ensures var all := [Arrives(m)] + events;
      var (s, sent) := Run(ops, New(ops, cols, rows), [], all);
      && (forall n :: n in s.states && n >= FloorAfter(ops, New(ops, cols, rows), all, 0) ==> s.states[n] == truth(n))
      && ops.snapshot(ops.write(start, sent + s.out)) == truth(Newest(ops, all, 0))
  {
    hide Applied, Laws, AcceptsFrom;
    var s := New(ops, cols, rows);
    var all := [Arrives(m)] + events;
    assert all[0] == Arrives(m) && all[1..] == events;
    AppliedIsTrue(ops, truth, s, m, 0);
    AppliedIsDisplayed(ops, truth, s, m, start, [], 0);
    RunKeeps(ops, truth, Applied(ops, s, m), start, [], events, NextFloor(ops, s, m, 0));
    RunKeeps(ops, truth, s, start, [], all, 0);
  }

  /** A resize starts over with the server's states at the new size, of which the blank screen is number 0. */
  lemma ResizeIsTrue<E(!new), F(!new)>(ops: Ops<E, F>, truth: nat -> F, s: State<E, F>, cols: nat, rows: nat,
        start: E, sent: Bytes)
    requires truth(0) == ops.snapshot(ops.blank(cols, rows))
    ensures var s' := New(ops, cols, rows).(latest := s.latest, out := s.out);
      True(ops, truth, s') && Displayed(ops, truth, s', start, sent)
  {
  }

  /** The shadow is put on the base before the diff is decoded. After one that does not decode, from a base that is
      there, the states stay true exactly when the base shows the same as the state the shadow is numbered by. */
  lemma FailedDecode<E(!new), F(!new)>(ops: Ops<E, F>, truth: nat -> F, s: State<E, F>, m: Message)
    requires Laws(ops) && True(ops, truth, s) && m.newNum !in s.states && s.Holds(m.oldNum)
    requires ops.decode(m.diff).None?
    ensures True(ops, truth, Applied(ops, s, m)) <==> truth(m.oldNum) == truth(s.shadowNum)
  {
    OnlyAcceptedIsTrue(ops, truth, s, m);
  }

  /** From a base that is not there, a diff of the server's leaves the states true exactly when the server's base
      was blank. */
  lemma UnknownBase<E(!new), F(!new)>(ops: Ops<E, F>, truth: nat -> F, s: State<E, F>, m: Message)
    requires Laws(ops) && True(ops, truth, s) && m.newNum !in s.states && !s.Holds(m.oldNum)
    requires Genuine(ops, truth, m) && m.throwaway <= m.oldNum < m.newNum
    ensures True(ops, truth, Applied(ops, s, m)) <==> truth(m.oldNum) == ops.snapshot(ops.blank(s.cols, s.rows))
  {
    OnlyAcceptedIsTrue(ops, truth, s, m);
  }

  // ---- what is written, and what is kept ----

  function Concat(strings: seq<Bytes>): Bytes {
    if strings == [] then [] else strings[0] + Concat(strings[1..])
  }

  /** All the host's strings are written, in order, and nothing else. */
  lemma {:induction false} WriteAllMeans<E(!new), F(!new)>(ops: Ops<E, F>, e: E, strings: seq<Bytes>)
    requires Laws(ops)
    ensures
      var all := Concat(strings);
      WriteAll(ops, e, strings) == if all == [] then e else ops.write(e, all)
    decreases |strings|
  {
    if strings != [] {
      var first, rest := strings[0], Concat(strings[1..]);
      WriteAllMeans(ops, if |first| > 0 then ops.write(e, first) else e, strings[1..]);
      if first == [] {
        assert first + rest == rest;
      } else if rest == [] {
        assert first + rest == first;
      }
    }
  }

  /** Of the states there were, the diff's base and the one it leads to, exactly those below throwaway go, but for the
      newest; those that stay are as they were. */
  lemma KeepsTheRest<E(!new), F(!new)>(ops: Ops<E, F>, s: State<E, F>, m: Message, n: nat)
    requires m.newNum !in s.states && ops.decode(m.diff).Some?
    ensures
      var s' := Applied(ops, s, m);
      && (n in s'.states <==>
           (n in s.states || n == m.oldNum || n == m.newNum) && (n >= m.throwaway || n == s'.latest))
      && (n in s.states && n in s'.states ==> s'.states[n] == s.states[n])
  {
    hide WriteAll;
  }

  /** What does not decode, and what has been received before, throws nothing away. */
  lemma KeepsAll<E(!new), F(!new)>(ops: Ops<E, F>, s: State<E, F>, m: Message, n: nat)
    requires m.newNum in s.states || ops.decode(m.diff).None?
    ensures n in s.states ==> n in Applied(ops, s, m).states && Applied(ops, s, m).states[n] == s.states[n]
  {
    hide WriteAll;
  }

  /** Is state n the one that some diff among the events leads to? */
  predicate Received<E, F>(ops: Ops<E, F>, events: seq<Event>, n: nat) {
    exists i :: 0 <= i < |events| && events[i].Arrives? && events[i].m.newNum == n && ops.decode(events[i].m.diff).Some?
  }

  function Higher(event: Event, floor: nat): nat {
    if event.Arrives? && event.m.throwaway > floor then event.m.throwaway else floor
  }

  /** The highest number below which the server said it would use no state any more. */
  function Floor(events: seq<Event>, floor: nat): nat
    decreases |events|
  {
    if events == [] then floor
    else
      Floor(events[1..], Higher(events[0], floor))
  }

  lemma {:induction false} FloorGrows(events: seq<Event>, floor: nat)
    ensures floor <= Floor(events, floor)
    decreases |events|
  {
    if events != [] {
      FloorGrows(events[1..], Higher(events[0], floor));
    }
  }

  /** In every run, every state that was there or that was received is there to take diffs from, unless its number is
      below one that the server said it would not use any more. */
  lemma {:induction false} ReceivedIsThere<E(!new), F(!new)>(ops: Ops<E, F>, s: State<E, F>, sent: Bytes,
        events: seq<Event>, floor: nat, n: nat)
    requires n in s.states || Received(ops, events, n)
    requires n >= Floor(events, floor)
    ensures n in Run(ops, s, sent, events).0.states
    decreases |events|
  {
    hide Applied;
    if events != [] {
      match events[0]
      case Arrives(m) =>
        FloorGrows(events[1..], Higher(events[0], floor));
        StepKeeps(ops, s, m, n);
        if Received(ops, events, n) { ReceivedNext(ops, events, n); }
        ReceivedIsThere(ops, Applied(ops, s, m), sent, events[1..], Higher(events[0], floor), n);
      case Taken =>
        if Received(ops, events, n) { ReceivedNext(ops, events, n); }
        ReceivedIsThere(ops, s.(out := []), sent + s.out, events[1..], floor, n);
    }
  }

  lemma StepKeeps<E(!new), F(!new)>(ops: Ops<E, F>, s: State<E, F>, m: Message, n: nat)
    requires n >= m.throwaway
    ensures n in s.states || (n == m.newNum && ops.decode(m.diff).Some?) ==> n in Applied(ops, s, m).states
  {
    hide Applied;
    if m.newNum in s.states || ops.decode(m.diff).None? {
      KeepsAll(ops, s, m, n);
    } else {
      KeepsTheRest(ops, s, m, n);
    }
  }

  lemma ReceivedNext<E, F>(ops: Ops<E, F>, events: seq<Event>, n: nat)
    requires events != [] && Received(ops, events, n)
    ensures
      (events[0].Arrives? && events[0].m.newNum == n && ops.decode(events[0].m.diff).Some?) ||
      Received(ops, events[1..], n)
  {
    var i :| 0 <= i < |events| && events[i].Arrives? && events[i].m.newNum == n && ops.decode(events[i].m.diff).Some?;
    if i > 0 {
      assert events[1..][i - 1] == events[i];
    }
  }
}
