/** The filter that takes the host's events out of a terminal's input (progressive/events.go), whatever reads
    the input arrives in. Bytes are characters. */
module EventFilter {
  import opened Wrappers

  type Bytes = string

  const ESC: char := '\U{001b}'
  const BEL: char := '\U{0007}'
  const HEAD: Bytes := [ESC, ']', '7', '3', '3', '7', ';', 'e', 'v', 'e', 'n', 't', ';']

  /** Does head start at b[i]? */
  predicate HeadAt(b: Bytes, i: nat) {
    i + |HEAD| <= |b| && forall k :: 0 <= k < |HEAD| ==> b[i + k] == HEAD[k]
  }

  /** The first place from i on where an event's head is. */
  function IndexFrom(b: Bytes, i: nat): (r: Option<nat>)
    ensures r.Some? ==> i <= r.value && HeadAt(b, r.value) && forall k :: i <= k < r.value ==> !HeadAt(b, k)
    ensures r.None? ==> forall k :: i <= k ==> !HeadAt(b, k)
    decreases |b| - i
  {
    if i + |HEAD| > |b| then None else if HeadAt(b, i) then Some(i) else IndexFrom(b, i + 1)
  }

  predicate TerminatorAt(b: Bytes, i: nat) {
    i < |b| && (b[i] == BEL || (b[i] == ESC && i + 1 < |b| && b[i + 1] == '\\'))
  }

  /** The end of an OSC string, and how long its terminator is: BEL or ESC \. */
  function TerminatorFrom(b: Bytes, i: nat): (r: Option<(nat, nat)>)
    ensures r.Some? ==> i <= r.value.0 && TerminatorAt(b, r.value.0) && 1 <= r.value.1 && r.value.0 + r.value.1 <= |b|
    ensures r.Some? ==> r.value.1 == if b[r.value.0] == BEL then 1 else 2
    ensures r.Some? ==> forall k :: i <= k < r.value.0 ==> !TerminatorAt(b, k)
    ensures r.None? ==> forall k :: i <= k ==> !TerminatorAt(b, k)
    decreases |b| - i
  {
    if i >= |b| then None
    else if b[i] == BEL then Some((i, 1))
    else if b[i] == ESC && i + 1 < |b| && b[i + 1] == '\\' then Some((i, 2))
    else TerminatorFrom(b, i + 1)
  }

  /** A stretch of input: passed on, or one whole event with what ended it. */
  datatype Piece = Keys(b: Bytes) | Event(body: Bytes, end: Bytes) {
    function Text(): Bytes {
      match this case Keys(b) => b case Event(body, end) => HEAD + body + end
    }
  }

  function Texts(ps: seq<Piece>): Bytes {
    if ps == [] then "" else ps[0].Text() + Texts(ps[1..])
  }

  /** What is passed on. */
  function KeysOf(ps: seq<Piece>): Bytes {
    if ps == [] then "" else (if ps[0].Keys? then ps[0].b else "") + KeysOf(ps[1..])
  }

  /** The events' bodies. */
  function Bodies(ps: seq<Piece>): seq<Bytes> {
    if ps == [] then [] else (if ps[0].Event? then [ps[0].body] else []) + Bodies(ps[1..])
  }

  /** Are b's last k bytes the first of a head? */
  predicate StartsHead(b: Bytes, k: nat)
    requires k <= |b| && k < |HEAD|
  {
    b[|b| - k..] == HEAD[..k]
  }

  /** How much of b's end may be the start of a head: at least three bytes, as a lone ESC or ESC ] is a key. */
  function Partial(b: Bytes, k: nat): (r: nat)
    requires k <= |b| && k < |HEAD|
    ensures r <= k && (r > 0 ==> 3 <= r && StartsHead(b, r))
  {
    hide StartsHead;
    if k < 3 then 0 else if StartsHead(b, k) then k else Partial(b, k - 1)
  }

  function Longest(b: Bytes): nat {
    if |b| < |HEAD| - 1 then |b| else |HEAD| - 1
  }

  /** take: the complete events are cut out, and the start of one still arriving is held. */
  function Take(b: Bytes): (r: (seq<Piece>, Bytes))
    decreases |b|, 1
  {
    match IndexFrom(b, 0)
    case None =>
      var k := Partial(b, Longest(b));
      ([Keys(b[..|b| - k])], b[|b| - k..])
    case Some(i) => TakeFrom(b, i)
  }

  /** The first head being at i. */
  function TakeFrom(b: Bytes, i: nat): (r: (seq<Piece>, Bytes))
    requires i + |HEAD| <= |b|
    decreases |b|, 0
  {
    var tail := b[i + |HEAD|..];
    match TerminatorFrom(tail, 0)
    case None => ([Keys(b[..i])], b[i..])
    case Some((end, n)) =>
      var (rest, held) := Take(tail[end + n..]);
      ([Keys(b[..i]), Event(tail[..end], tail[end..end + n])] + rest, held)
  }

  /** What filtering a whole input is: every event with an end is taken out, the rest passed on. */
  function Filtered(b: Bytes): seq<Piece>
    decreases |b|, 1
  {
    match IndexFrom(b, 0)
    case None => [Keys(b)]
    case Some(i) => FilteredAt(b, i)
  }

  /** The first head being at i. */
  function FilteredAt(b: Bytes, i: nat): seq<Piece>
    requires i + |HEAD| <= |b|
    decreases |b|, 0
  {
    var tail := b[i + |HEAD|..];
    match TerminatorFrom(tail, 0)
    case None => [Keys(b)]
    case Some((end, n)) => [Keys(b[..i]), Event(tail[..end], tail[end..end + n])] + Filtered(tail[end + n..])
  }

  // ---- nothing is lost ----

  lemma {:induction false} TextsAppend(a: seq<Piece>, b: seq<Piece>)
    ensures Texts(a + b) == Texts(a) + Texts(b)
    decreases |a|
  {
    if a == [] {
      assert a + b == b && "" + Texts(b) == Texts(b);
    } else {
      assert (a + b)[0] == a[0] && (a + b)[1..] == a[1..] + b;
      TextsAppend(a[1..], b);
      Assoc(a[0].Text(), Texts(a[1..]), Texts(b));
    }
  }

  lemma {:induction false} KeysAppend(a: seq<Piece>, b: seq<Piece>)
    ensures KeysOf(a + b) == KeysOf(a) + KeysOf(b)
    decreases |a|
  {
    if a == [] {
      assert a + b == b && "" + KeysOf(b) == KeysOf(b);
    } else {
      assert (a + b)[0] == a[0] && (a + b)[1..] == a[1..] + b;
      KeysAppend(a[1..], b);
      Assoc(if a[0].Keys? then a[0].b else "", KeysOf(a[1..]), KeysOf(b));
    }
  }

  lemma {:induction false} BodiesAppend(a: seq<Piece>, b: seq<Piece>)
    ensures Bodies(a + b) == Bodies(a) + Bodies(b)
    decreases |a|
  {
    if a == [] {
      assert a + b == b && [] + Bodies(b) == Bodies(b);
    } else {
      assert (a + b)[0] == a[0] && (a + b)[1..] == a[1..] + b;
      BodiesAppend(a[1..], b);
      Assoc(if a[0].Event? then [a[0].body] else [], Bodies(a[1..]), Bodies(b));
    }
  }

  /** Keys, an event and more. */
  lemma PiecesOf(k: Bytes, e: Piece, rest: seq<Piece>)
    requires e.Event?
    ensures Texts([Keys(k), e] + rest) == k + (e.Text() + Texts(rest))
    ensures KeysOf([Keys(k), e] + rest) == k + KeysOf(rest)
    ensures Bodies([Keys(k), e] + rest) == [e.body] + Bodies(rest)
  {
    var all := [Keys(k), e] + rest;
    assert all[0] == Keys(k) && all[1..] == [e] + rest && ([e] + rest)[0] == e && ([e] + rest)[1..] == rest;
    assert "" + KeysOf(rest) == KeysOf(rest);
    assert [] + Bodies([e] + rest) == Bodies([e] + rest);
  }

  lemma OneKeys(k: Bytes)
    ensures Texts([Keys(k)]) == KeysOf([Keys(k)]) == k && Bodies([Keys(k)]) == []
  {
    assert k + "" == k;
  }

  lemma Split3(b: Bytes, i: nat, j: nat)
    requires i <= j <= |b|
    ensures b == b[..i] + (b[i..j] + b[j..])
  {
  }

  lemma Regroup(h: Bytes, a: Bytes, c: Bytes, d: Bytes)
    ensures h + (a + (c + d)) == (h + a + c) + d
  {
  }

  lemma HeadThen(b: Bytes, i: nat)
    requires HeadAt(b, i) && i + |HEAD| <= |b|
    ensures b == b[..i] + (HEAD + b[i + |HEAD|..])
  {
    Split3(b, i, i + |HEAD|);
  }

  lemma EventBytes(b: Bytes, i: nat, end: nat, n: nat)
    requires HeadAt(b, i) && i + |HEAD| + end + n <= |b|
    ensures var tail := b[i + |HEAD|..];
      b == b[..i] + ((HEAD + tail[..end] + tail[end..end + n]) + tail[end + n..])
  {
    hide HeadAt;
    HeadThen(b, i);
    var tail := b[i + |HEAD|..];
    Split3(tail, end, end + n);
    Regroup(HEAD, tail[..end], tail[end..end + n], tail[end + n..]);
  }

  lemma HeadFits(b: Bytes, i: nat)
    requires HeadAt(b, i)
    ensures i + |HEAD| <= |b|
  {
  }

  lemma TakeAt(rest: Bytes, i: nat, end: nat, n: nat)
    requires IndexFrom(rest, 0) == Some(i) && i + |HEAD| <= |rest|
    requires TerminatorFrom(rest[i + |HEAD|..], 0) == Some((end, n))
    ensures var tail := rest[i + |HEAD|..];
      && Take(rest).0 == [Keys(rest[..i]), Event(tail[..end], tail[end..end + n])] + Take(tail[end + n..]).0
      && Take(rest).1 == Take(tail[end + n..]).1
  {
    hide IndexFrom, TerminatorFrom, Partial, Longest, HeadAt, TerminatorAt;
  }

  /** With no whole event, all but what is held is passed on. */
  lemma TakeHeld(b: Bytes)
    requires IndexFrom(b, 0).None?
    ensures Take(b).0 == [Keys(b[..|b| - Partial(b, Longest(b))])]
    ensures Take(b).1 == b[|b| - Partial(b, Longest(b))..]
  {
    hide Partial, IndexFrom, TerminatorFrom, Longest, HeadAt;
  }

  lemma TakePart(b: Bytes, i: nat)
    requires IndexFrom(b, 0) == Some(i) && i + |HEAD| <= |b| && TerminatorFrom(b[i + |HEAD|..], 0).None?
    ensures Take(b).0 == [Keys(b[..i])] && Take(b).1 == b[i..]
  {
    hide TerminatorFrom, IndexFrom, HeadAt, TerminatorAt, Partial;
  }

  /** Every byte is in one piece or held, in order. */
  lemma {:induction false} TakeKeepsBytes(b: Bytes)
    ensures Texts(Take(b).0) + Take(b).1 == b
    decreases |b|
  {
    hide Texts, HeadAt, Take, IndexFrom, TerminatorFrom, Partial;
    var at := IndexFrom(b, 0);
    if at.None? {
      TakeHeld(b);
      OneKeys(b[..|b| - |Take(b).1|]);
    } else {
      var i := at.value;
      HeadFits(b, i);
      var tail := b[i + |HEAD|..];
      var t := TerminatorFrom(tail, 0);
      OneKeys(b[..i]);
      if t.None? {
        TakePart(b, i);
      } else {
        var (end, n) := t.value;
        var (rest, held) := Take(tail[end + n..]);
        var e := Event(tail[..end], tail[end..end + n]);
        TakeAt(b, i, end, n);
        TakeKeepsBytes(tail[end + n..]);
        PiecesOf(b[..i], e, rest);
        EventBytes(b, i, end, n);
        Assoc(b[..i], e.Text() + Texts(rest), held);
        Assoc(e.Text(), Texts(rest), held);
      }
    }
  }

  // ---- splitting the input ----

  lemma HeadInPrefix(x: Bytes, y: Bytes, i: nat)
    requires i + |HEAD| <= |x|
    ensures HeadAt(x + y, i) <==> HeadAt(x, i)
  {
    assert (x + y)[i..i + |HEAD|] == x[i..i + |HEAD|];
  }

  lemma HeadInSuffix(b: Bytes, q: nat, i: nat)
    requires q <= |b|
    ensures HeadAt(b, q + i) <==> HeadAt(b[q..], i)
  {
    if q + i + |HEAD| <= |b| {
      assert b[q + i..q + i + |HEAD|] == b[q..][i..i + |HEAD|];
    }
  }

  lemma IndexIs(b: Bytes, i: nat)
    requires HeadAt(b, i) && forall k :: 0 <= k < i ==> !HeadAt(b, k)
    ensures IndexFrom(b, 0) == Some(i)
  {
    hide HeadAt;
  }

  lemma TerminatorIs(b: Bytes, i: nat)
    requires TerminatorAt(b, i) && forall k :: 0 <= k < i ==> !TerminatorAt(b, k)
    ensures TerminatorFrom(b, 0) == Some((i, if b[i] == BEL then 1 else 2))
  {
    hide TerminatorAt;
  }

  /** Keys and bodies, which is what the caller sees of the pieces. */
  ghost predicate Same(ps: seq<Piece>, k: Bytes, qs: seq<Piece>) {
    KeysOf(ps) == k + KeysOf(qs) && Bodies(ps) == Bodies(qs)
  }

  lemma IndexShift(b: Bytes, q: nat)
    requires q <= |b| && forall i :: 0 <= i < q ==> !HeadAt(b, i)
    ensures IndexFrom(b, 0) == match IndexFrom(b[q..], 0) case None => None case Some(i) => Some(q + i)
  {
    hide HeadAt, IndexFrom;
    var at := IndexFrom(b[q..], 0);
    forall k: nat | q <= k ensures HeadAt(b, k) <==> HeadAt(b[q..], k - q) {
      HeadInSuffix(b, q, k - q);
    }
    if at.Some? {
      IndexIs(b, q + at.value);
    }
  }

  /** With no head starting before q, the bytes before q are keys. */
  lemma KeysBefore(b: Bytes, q: nat)
    requires q <= |b| && forall i :: 0 <= i < q ==> !HeadAt(b, i)
    ensures Same(Filtered(b), b[..q], Filtered(b[q..]))
  {
    hide HeadAt, Same, FilteredAt, IndexFrom;
    IndexShift(b, q);
    var at := IndexFrom(b[q..], 0);
    if at.None? {
      AllKeys(b, q);
    } else {
      HeadFits(b[q..], at.value);
      KeysThenHead(b, q, at.value);
    }
  }

  lemma AllKeys(b: Bytes, q: nat)
    requires q <= |b|
    ensures Same([Keys(b)], b[..q], [Keys(b[q..])])
  {
    OneKeys(b);
    OneKeys(b[q..]);
  }

  lemma KeysThenHead(b: Bytes, q: nat, i: nat)
    requires q + i + |HEAD| <= |b|
    ensures Same(FilteredAt(b, q + i), b[..q], FilteredAt(b[q..], i))
  {
    hide KeysOf, Bodies, Filtered;
    var c := b[q..];
    var tail := c[i + |HEAD|..];
    assert b[q + i + |HEAD|..] == tail;
    var t := TerminatorFrom(tail, 0);
    if t.None? {
      AllKeys(b, q);
    } else {
      var (end, n) := t.value;
      SameEvent(b, q, i, Event(tail[..end], tail[end..end + n]), Filtered(tail[end + n..]));
    }
  }

  lemma TakeMore(b: Bytes, q: nat, i: nat)
    requires q + i <= |b|
    ensures b[..q + i] == b[..q] + b[q..][..i]
  {
  }

  lemma SameEvent(b: Bytes, q: nat, i: nat, e: Piece, rest: seq<Piece>)
    requires e.Event? && q + i <= |b|
    ensures Same([Keys(b[..q + i]), e] + rest, b[..q], [Keys(b[q..][..i]), e] + rest)
  {
    hide KeysOf, Bodies;
    PiecesOf(b[..q + i], e, rest);
    PiecesOf(b[q..][..i], e, rest);
    TakeMore(b, q, i);
    Assoc(b[..q], b[q..][..i], KeysOf(rest));
  }

  /** Taking b now and y with what is held later gives the keys and events of both together. */
  ghost predicate Continues(b: Bytes, y: Bytes) {
    var (ps, held) := Take(b);
    && KeysOf(Filtered(b + y)) == KeysOf(ps) + KeysOf(Filtered(held + y))
    && Bodies(Filtered(b + y)) == Bodies(ps) + Bodies(Filtered(held + y))
  }

  /** A head that starts in b and goes on in y is held. */
  lemma AcrossIsPartial(b: Bytes, y: Bytes, p: nat)
    requires HeadAt(b + y, p) && p < |b| < p + |HEAD|
    ensures b[p..] == HEAD[..|b| - p]
  {
    assert b[p..] == (b + y)[p..p + |HEAD|][..|b| - p];
  }

  lemma {:induction false} PartialIsLongest(b: Bytes, k: nat, m: nat)
    requires k <= |b| && k < |HEAD| && Partial(b, k) < m <= k && 3 <= m
    ensures b[|b| - m..] != HEAD[..m]
    decreases k
  {
    if m < k {
      PartialIsLongest(b, k - 1, m);
    }
  }

  lemma KeysThenHeld(b: Bytes, y: Bytes, q: nat)
    requires q <= |b| && Take(b).0 == [Keys(b[..q])] && Take(b).1 == b[q..]
    requires forall p :: 0 <= p < q ==> !HeadAt(b + y, p)
    ensures Continues(b, y)
  {
    hide Take, HeadAt, Filtered, KeysOf, Bodies;
    KeysBefore(b + y, q);
    CutJoined(b, y, q);
    OneKeys(b[..q]);
    NoneFirst(Bodies(Filtered(b[q..] + y)));
  }

  lemma CutJoined(b: Bytes, y: Bytes, q: nat)
    requires q <= |b|
    ensures (b + y)[..q] == b[..q] && (b + y)[q..] == b[q..] + y
  {
  }

  lemma NoneFirst<T>(s: seq<T>)
    ensures [] + s == s
  {
  }

  lemma TerminatorStays(t: Bytes, y: Bytes, end: nat, n: nat)
    requires TerminatorFrom(t, 0) == Some((end, n))
    ensures TerminatorFrom(t + y, 0) == Some((end, n))
  {
    forall k | 0 <= k < end ensures !TerminatorAt(t + y, k) {
      assert !TerminatorAt(t, k);
    }
    TerminatorIs(t + y, end);
  }

  lemma EventStays(b: Bytes, y: Bytes, i: nat, end: nat, n: nat)
    requires IndexFrom(b, 0) == Some(i) && i + |HEAD| <= |b|
    requires TerminatorFrom(b[i + |HEAD|..], 0) == Some((end, n))
    ensures var tail := b[i + |HEAD|..];
      Filtered(b + y) == [Keys(b[..i]), Event(tail[..end], tail[end..end + n])] + Filtered(tail[end + n..] + y)
  {
    hide HeadAt, TerminatorAt, TerminatorFrom;
    forall k | 0 <= k <= i ensures HeadAt(b + y, k) <==> HeadAt(b, k) { HeadInPrefix(b, y, k); }
    IndexIs(b + y, i);
    var tail := b[i + |HEAD|..];
    assert (b + y)[i + |HEAD|..] == tail + y;
    TerminatorStays(tail, y, end, n);
    assert (b + y)[..i] == b[..i] && (tail + y)[..end] == tail[..end] && (tail + y)[end..end + n] == tail[end..end + n];
    assert (tail + y)[end + n..] == tail[end + n..] + y;
  }

  lemma EventThenMore(b: Bytes, y: Bytes, i: nat, end: nat, n: nat)
    requires IndexFrom(b, 0) == Some(i) && i + |HEAD| <= |b|
    requires TerminatorFrom(b[i + |HEAD|..], 0) == Some((end, n)) && Continues(b[i + |HEAD|..][end + n..], y)
    ensures Continues(b, y)
  {
    hide HeadAt, TerminatorAt, TerminatorFrom, IndexFrom, Filtered, KeysOf, Bodies, Take;
    var tail := b[i + |HEAD|..];
    var e := Event(tail[..end], tail[end..end + n]);
    var more := tail[end + n..];
    EventStays(b, y, i, end, n);
    var (rest, held) := Take(more);
    TakeAt(b, i, end, n);
    PiecesOf(b[..i], e, rest);
    PiecesOf(b[..i], e, Filtered(more + y));
    Assoc(b[..i], KeysOf(rest), KeysOf(Filtered(held + y)));
    Assoc([e.body], Bodies(rest), Bodies(Filtered(held + y)));
  }

  // ---- the stream of reads ----

  function Concat(chunks: seq<Bytes>): Bytes {
    if chunks == [] then "" else chunks[0] + Concat(chunks[1..])
  }

  /** All the reads taken one after another: the pieces so far, and what is still held. */
  function Stream(held: Bytes, chunks: seq<Bytes>): (seq<Piece>, Bytes)
    decreases |chunks|
  {
    if chunks == [] then ([], held)
    else
      var (ps, h) := Take(held + chunks[0]);
      var (rest, last) := Stream(h, chunks[1..]);
      (ps + rest, last)
  }

  /** Whatever the reads, every byte is passed on in order, part of one whole event, or held. */
  lemma {:induction false} StreamKeepsBytes(held: Bytes, chunks: seq<Bytes>)
    ensures var (ps, last) := Stream(held, chunks); Texts(ps) + last == held + Concat(chunks)
    decreases |chunks|
  {
    if chunks == [] {
      assert "" + held == held == held + "";
    } else {
      var (ps, h) := Take(held + chunks[0]);
      var (rest, last) := Stream(h, chunks[1..]);
      TakeKeepsBytes(held + chunks[0]);
      StreamKeepsBytes(h, chunks[1..]);
      TextsAppend(ps, rest);
      Assoc(Texts(ps), Texts(rest), last);
      Assoc(Texts(ps), h, Concat(chunks[1..]));
      Assoc(held, chunks[0], Concat(chunks[1..]));
    }
  }

  lemma ShortHasNoHead(b: Bytes)
    requires |b| < |HEAD|
    ensures IndexFrom(b, 0).None?
  {
    forall i: nat ensures !HeadAt(b, i) {
      if HeadAt(b, i) { HeadFits(b, i); }
    }
  }

  /** What is held when the input ends was never an event. */
  lemma HeldIsKeys(b: Bytes)
    ensures Filtered(Take(b).1) == [Keys(Take(b).1)]
    decreases |b|
  {
    hide Take, IndexFrom, TerminatorFrom, HeadAt, Partial;
    var at := IndexFrom(b, 0);
    if at.None? {
      TakeHeld(b);
      ShortHasNoHead(Take(b).1);
    } else {
      var i := at.value;
      HeadFits(b, i);
      var tail := b[i + |HEAD|..];
      var t := TerminatorFrom(tail, 0);
      if t.None? {
        TakePart(b, i);
        HeadInSuffix(b, i, 0);
        IndexIs(b[i..], 0);
        assert b[i..][|HEAD|..] == tail;
      } else {
        TakeAt(b, i, t.value.0, t.value.1);
        HeldIsKeys(tail[t.value.0 + t.value.1..]);
      }
    }
  }

  // ---- the reader ----

  /** One read of the terminal: bytes, and whether it failed or the input ended. */
  datatype Chunk = Chunk(b: Bytes, err: bool)

  datatype Status = Data | Wake | Ended

  class Filter {
    /** What the terminal's next reads give; after them it has ended. */
    var coming: seq<Chunk>
    var held: Bytes
    var out: Bytes
    var err: bool
    /** The bodies handed to deliver. */
    var events: seq<Bytes>

    ghost var taken: seq<Bytes>
    ghost var passed: Bytes
    ghost var flushed: bool

    ghost predicate Valid()
      reads this
    {
      var (ps, last) := Stream("", taken);
      && events == Bodies(ps)
      && (if flushed then err && held == "" && passed + out == KeysOf(ps) + last
          else held == last && passed + out == KeysOf(ps))
    }

    constructor (coming: seq<Chunk>)
      ensures Valid() && taken == [] && passed == "" && this.coming == coming
    {
      this.coming := coming;
      held, out, err, events := "", "", false, [];
      taken, passed, flushed := [], "", false;
    }

    /** take: the complete events are delivered, and the start of one still arriving is kept back. */
    method TakeBytes(b: Bytes) returns (keys: Bytes)
      modifies this`held, this`events
      ensures keys == KeysOf(Take(b).0) && held == Take(b).1
      ensures events == old(events) + Bodies(Take(b).0)
    {
      hide Partial, HeadAt, TerminatorAt, Take, IndexFrom, TerminatorFrom, Bodies, KeysOf;
      keys := "";
      var rest := b;
      TakeNothingYet(events, b);
      while true
        invariant KeysOf(Take(b).0) == keys + KeysOf(Take(rest).0) && Take(b).1 == Take(rest).1
        invariant old(events) + Bodies(Take(b).0) == events + Bodies(Take(rest).0)
        decreases |rest|
      {
        var i := IndexFrom(rest, 0);
        if i.None? {
          break;
        }
        HeadFits(rest, i.value);
        var tail := rest[i.value + |HEAD|..];
        var t := TerminatorFrom(tail, 0);
        if t.None? {
          TakePart(rest, i.value);
          keys, held := keys + rest[..i.value], rest[i.value..];
          OneKeys(rest[..i.value]);
          assert events + [] == events;
          return;
        }
        ghost var k0, e0 := keys, events;
        events := events + [tail[..t.value.0]];
        keys := keys + rest[..i.value];
        var more := tail[t.value.0 + t.value.1..];
        TakeOne(k0, e0, rest, i.value, t.value.0, t.value.1);
        rest := more;
      }
      TakeHeld(rest);
      var k := Partial(rest, Longest(rest));
      keys, held := keys + rest[..|rest| - k], rest[|rest| - k..];
      OneKeys(rest[..|rest| - k]);
      assert events + [] == events;
    }

    method Read(size: nat) returns (data: Bytes, status: Status)
      requires Valid()
      modifies this
      ensures Valid() && |data| <= size && passed == old(passed) + data
      ensures old(taken) <= taken && old(events) <= events
      ensures status == Data && size > 0 ==> data != ""
      ensures status != Data ==> data == ""
      ensures status == Ended ==> passed == KeysOf(Stream("", taken).0) + Stream("", taken).1
    {
      hide Take, KeysOf, Bodies;
      while |out| == 0
        invariant Valid() && passed == old(passed) && old(taken) <= taken && old(events) <= events
        decreases !err, |coming|, |held|
      {
        if err {
          if |held| > 0 {
            out, held := held, "";
            flushed := true;
            break;
          }
          assert passed + "" == passed;
          return "", Ended;
        }
        var chunk := if coming == [] then Chunk("", true) else coming[0];
        coming := if coming == [] then [] else coming[1..];
        err := chunk.err;
        if chunk.b == "" && !chunk.err {
          assert passed + "" == passed;
          return "", Wake;
        }
        ghost var was := Stream("", taken);
        StreamMore("", taken, chunk.b);
        taken := taken + [chunk.b];
        out := TakeBytes(held + chunk.b);
      }
      var n := if size < |out| then size else |out|;
      data := out[..n];
      assert passed + out == (passed + data) + out[n..];
      out := out[n..];
      passed := passed + data;
      status := Data;
    }
  }

  lemma TakeNothingYet(events: seq<Bytes>, b: Bytes)
    ensures "" + KeysOf(Take(b).0) == KeysOf(Take(b).0)
  {
  }

  lemma TakeOne(keys: Bytes, events: seq<Bytes>, rest: Bytes, i: nat, end: nat, n: nat)
    requires IndexFrom(rest, 0) == Some(i) && i + |HEAD| <= |rest|
    requires TerminatorFrom(rest[i + |HEAD|..], 0) == Some((end, n))
    ensures var tail := rest[i + |HEAD|..];
      var more := Take(tail[end + n..]);
      && Take(rest).1 == more.1
      && keys + KeysOf(Take(rest).0) == (keys + rest[..i]) + KeysOf(more.0)
      && events + Bodies(Take(rest).0) == (events + [tail[..end]]) + Bodies(more.0)
  {
    hide KeysOf, Bodies, HeadAt, TerminatorAt, IndexFrom, TerminatorFrom, Partial, Take;
    var tail := rest[i + |HEAD|..];
    var ps := Take(tail[end + n..]).0;
    var e := Event(tail[..end], tail[end..end + n]);
    TakeAt(rest, i, end, n);
    PiecesOf(rest[..i], e, ps);
    Assoc(keys, rest[..i], KeysOf(ps));
    Assoc(events, [tail[..end]], Bodies(ps));
  }

  lemma {:induction false} StreamMore(held: Bytes, chunks: seq<Bytes>, c: Bytes)
    ensures var (ps, last) := Stream(held, chunks);
      var (qs, last') := Take(last + c);
      && Stream(held, chunks + [c]).1 == last'
      && KeysOf(Stream(held, chunks + [c]).0) == KeysOf(ps) + KeysOf(qs)
      && Bodies(Stream(held, chunks + [c]).0) == Bodies(ps) + Bodies(qs)
    decreases |chunks|
  {
    var all := chunks + [c];
    var (ps, last) := Stream(held, chunks);
    if chunks == [] {
      assert all[0] == c && all[1..] == [];
      var (qs, h) := Take(held + c);
      assert qs + [] == qs && "" + KeysOf(qs) == KeysOf(qs) && [] + Bodies(qs) == Bodies(qs);
    } else {
      assert all[0] == chunks[0] && all[1..] == chunks[1..] + [c];
      var (p, h) := Take(held + chunks[0]);
      StreamMore(h, chunks[1..], c);
      var (rest, _) := Stream(h, chunks[1..]);
      var (qs, _) := Take(last + c);
      KeysAppend(p, rest);
      BodiesAppend(p, rest);
      KeysAppend(p, Stream(h, all[1..]).0);
      BodiesAppend(p, Stream(h, all[1..]).0);
      Assoc(KeysOf(p), KeysOf(rest), KeysOf(qs));
      Assoc(Bodies(p), Bodies(rest), Bodies(qs));
    }
  }
}
