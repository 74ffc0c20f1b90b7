/** When the event filter's result does not depend on the reads (progressive/events.go): exactly when no read ends
    one or two bytes into an event. */
module EventSplit {
  import opened Wrappers
  import opened EventFilter

  // ---- the events of an input, by their places ----

  /** An event's head is at start, its terminator at stop, and what follows it at end. */
  datatype Place = Place(start: nat, stop: nat, end: nat)

  /** The first event of an input that has both its head and its end. */
  function NextEvent(x: Bytes): (r: Option<Place>)
    ensures r.Some? ==> r.value.start + |HEAD| <= r.value.stop < r.value.end <= |x|
  {
    match IndexFrom(x, 0)
    case None => None
    case Some(i) =>
      HeadFits(x, i);
      match TerminatorFrom(x[i + |HEAD|..], 0)
      case None => None
      case Some((end, n)) => Some(Place(i, i + |HEAD| + end, i + |HEAD| + end + n))
  }

  /** How many events an input has. */
  function Count(x: Bytes): nat {
    |Bodies(Filtered(x))|
  }

  function TerminatorLength(x: Bytes, t: nat): nat
    requires t < |x|
  {
    if x[t] == BEL then 1 else 2
  }

  ghost predicate IsNext(x: Bytes, i: nat, t: nat) {
    && HeadAt(x, i) && (forall k :: 0 <= k < i ==> !HeadAt(x, k))
    && i + |HEAD| <= t && TerminatorAt(x, t) && (forall k :: i + |HEAD| <= k < t ==> !TerminatorAt(x, k))
  }

  lemma TerminatorInSuffix(x: Bytes, q: nat, k: nat)
    requires q <= |x|
    ensures TerminatorAt(x[q..], k) <==> TerminatorAt(x, q + k)
  {
  }

  lemma NextEventFacts(x: Bytes)
    requires NextEvent(x).Some?
    ensures var e := NextEvent(x).value; IsNext(x, e.start, e.stop) && e.end == e.stop + TerminatorLength(x, e.stop)
  {
    hide HeadAt, TerminatorAt, IndexFrom, TerminatorFrom;
    var e := NextEvent(x).value;
    var q := e.start + |HEAD|;
    TerminatorInSuffix(x, q, e.stop - q);
    forall k | q <= k < e.stop ensures !TerminatorAt(x, k) {
      TerminatorInSuffix(x, q, k - q);
    }
    assert x[q..][e.stop - q] == x[e.stop];
  }

  lemma NextEventIs(x: Bytes, i: nat, t: nat)
    requires IsNext(x, i, t)
    ensures t < |x| && NextEvent(x) == Some(Place(i, t, t + TerminatorLength(x, t)))
  {
    hide HeadAt, TerminatorFrom;
    HeadFits(x, i);
    IndexIs(x, i);
    var q := i + |HEAD|;
    TerminatorInSuffix(x, q, t - q);
    forall k | 0 <= k < t - q ensures !TerminatorAt(x[q..], k) {
      TerminatorInSuffix(x, q, k);
    }
    TerminatorIs(x[q..], t - q);
    assert x[q..][t - q] == x[t];
  }

  /** With no event, there is no terminator after a head. */
  lemma NoEvent(x: Bytes, i: nat, t: nat)
    requires NextEvent(x).None? && HeadAt(x, i) && TerminatorAt(x, t)
    ensures t < i + |HEAD|
  {
    hide HeadAt, TerminatorAt, TerminatorFrom, IndexFrom;
    var f := IndexFrom(x, 0).value;
    assert f <= i;
    if t >= f + |HEAD| {
      HeadFits(x, f);
      TerminatorInSuffix(x, f + |HEAD|, t - f - |HEAD|);
    }
  }

  lemma FilteredNone(x: Bytes)
    requires NextEvent(x).None?
    ensures Filtered(x) == [Keys(x)] && Count(x) == 0 && KeysOf(Filtered(x)) == x
  {
    hide HeadAt, TerminatorAt, TerminatorFrom, IndexFrom;
    OneKeys(x);
  }

  function EventOf(x: Bytes, e: Place): Piece
    requires e.start + |HEAD| <= e.stop <= e.end <= |x|
  {
    Event(x[e.start + |HEAD|..e.stop], x[e.stop..e.end])
  }

  /** The parts of an event, cut from what follows its head. */
  lemma CutFrom(x: Bytes, q: nat, n: nat, m: nat)
    requires q + n <= q + n + m <= |x|
    ensures x[q..][..n] == x[q..q + n] && x[q..][n..n + m] == x[q + n..q + n + m]
    ensures x[q..][n + m..] == x[q + n + m..]
  {
  }

  lemma FilteredFirst(x: Bytes)
    requires NextEvent(x).Some?
    ensures var e := NextEvent(x).value;
      Filtered(x) == [Keys(x[..e.start]), EventOf(x, e)] + Filtered(x[e.end..])
  {
    hide HeadAt, TerminatorAt, TerminatorFrom, IndexFrom, KeysOf, Bodies;
    var e := NextEvent(x).value;
    CutFrom(x, e.start + |HEAD|, e.stop - e.start - |HEAD|, e.end - e.stop);
  }

  lemma FilteredSome(x: Bytes)
    requires NextEvent(x).Some?
    ensures var e := NextEvent(x).value;
      && Filtered(x) == [Keys(x[..e.start]), EventOf(x, e)] + Filtered(x[e.end..])
      && Bodies(Filtered(x)) == [EventOf(x, e).body] + Bodies(Filtered(x[e.end..]))
      && Count(x) == 1 + Count(x[e.end..])
  {
    hide NextEvent, Filtered, Bodies, KeysOf;
    var e := NextEvent(x).value;
    FilteredFirst(x);
    PiecesOf(x[..e.start], EventOf(x, e), Filtered(x[e.end..]));
  }

  // ---- heads and terminators do not overlap ----

  lemma HeadBytes(x: Bytes, a: nat)
    requires HeadAt(x, a)
    ensures a + |HEAD| <= |x| && x[a] == ESC && x[a + 1] == ']'
    ensures forall k :: a < k < a + |HEAD| ==> x[k] != ESC && x[k] != BEL
  {
    assert x[a + 0] == HEAD[0] && x[a + 1] == HEAD[1];
    forall k | a < k < a + |HEAD| ensures x[k] != ESC && x[k] != BEL {
      assert x[a + (k - a)] == HEAD[k - a];
    }
  }

  lemma HeadOrTerminator(x: Bytes, a: nat, t: nat)
    requires HeadAt(x, a) && TerminatorAt(x, t)
    ensures t + TerminatorLength(x, t) <= a || a + |HEAD| <= t
  {
    HeadBytes(x, a);
  }

  lemma HeadsApart(x: Bytes, a: nat, b: nat)
    requires HeadAt(x, a) && HeadAt(x, b) && a < b
    ensures a + |HEAD| <= b
  {
    HeadBytes(x, a);
    HeadBytes(x, b);
  }

  // ---- a later start finds no more events ----

  lemma {:induction false} FirstHead(x: Bytes, q: nat, k: nat) returns (a: nat)
    requires q <= k && HeadAt(x, k)
    ensures q <= a <= k && HeadAt(x, a) && forall j :: q <= j < a ==> !HeadAt(x, j)
    decreases k - q
  {
    hide HeadAt;
    if HeadAt(x, q) {
      a := q;
    } else {
      a := FirstHead(x, q + 1, k);
    }
  }

  /** An event of x that starts at or after q is one of what begins there. */
  lemma EventFrom(x: Bytes, q: nat, a: nat, t: nat)
    requires q <= a && HeadAt(x, a) && (forall k :: q <= k < a ==> !HeadAt(x, k))
    requires a + |HEAD| <= t && TerminatorAt(x, t) && forall k :: a + |HEAD| <= k < t ==> !TerminatorAt(x, k)
    ensures q <= |x| && t < |x| && NextEvent(x[q..]) == Some(Place(a - q, t - q, t + TerminatorLength(x, t) - q))
  {
    hide HeadAt, TerminatorAt, NextEvent;
    HeadBytes(x, a);
    var y := x[q..];
    HeadInSuffix(x, q, a - q);
    forall k | 0 <= k < a - q ensures !HeadAt(y, k) {
      HeadInSuffix(x, q, k);
    }
    TerminatorInSuffix(x, q, t - q);
    forall k | a - q + |HEAD| <= k < t - q ensures !TerminatorAt(y, k) {
      TerminatorInSuffix(x, q, k);
    }
    NextEventIs(y, a - q, t - q);
    assert y[t - q] == x[t];
  }

  /** What begins before the first event, and before its head ends, has the same first event. */
  lemma NextFrom(x: Bytes, q: nat)
    requires NextEvent(x).Some? && q <= NextEvent(x).value.start
    ensures var e := NextEvent(x).value; NextEvent(x[q..]) == Some(Place(e.start - q, e.stop - q, e.end - q))
  {
    hide HeadAt, TerminatorAt, NextEvent;
    NextEventFacts(x);
    EventFrom(x, q, NextEvent(x).value.start, NextEvent(x).value.stop);
  }

  /** What begins inside the first event has an event that ends where that does, or no head before its end. */
  lemma NextInside(x: Bytes, q: nat)
    requires NextEvent(x).Some? && NextEvent(x).value.start < q < NextEvent(x).value.end
    ensures var e, next := NextEvent(x).value, NextEvent(x[q..]);
      (next.Some? && q + next.value.stop == e.stop && q + next.value.end == e.end) ||
      (forall k :: q <= k < e.end ==> !HeadAt(x, k))
  {
    hide HeadAt, TerminatorAt, NextEvent;
    NextEventFacts(x);
    var e := NextEvent(x).value;
    if exists k :: q <= k < e.end && HeadAt(x, k) {
      var k :| q <= k < e.end && HeadAt(x, k);
      var a := FirstHead(x, q, k);
      HeadOrTerminator(x, a, e.stop);
      EventFrom(x, q, a, e.stop);
    }
  }

  /** With no head from the start of y to place d, y has the events of what begins there. */
  lemma SkipKeys(y: Bytes, d: nat)
    requires d <= |y| && forall k :: 0 <= k < d ==> !HeadAt(y, k)
    ensures Count(y) == Count(y[d..])
  {
    hide HeadAt, Filtered, KeysOf, Bodies;
    KeysBefore(y, d);
  }

  /** What begins later has no more events. */
  lemma {:induction false} CountFrom(x: Bytes, q: nat)
    requires q <= |x|
    ensures Count(x[q..]) <= Count(x)
    decreases |x|
  {
    hide HeadAt, TerminatorAt, NextEvent, Count;
    var y := x[q..];
    if NextEvent(x).None? {
      FilteredNone(x);
      NoneLater(x, q);
    } else {
      var e := NextEvent(x).value;
      FilteredSome(x);
      if q >= e.end {
        CountFrom(x[e.end..], q - e.end);
        assert x[e.end..][q - e.end..] == y;
      } else {
        InsideOrBefore(x, q);
      }
    }
  }

  lemma NoneLater(x: Bytes, q: nat)
    requires q <= |x| && NextEvent(x).None?
    ensures NextEvent(x[q..]).None? && Count(x[q..]) == 0
  {
    hide HeadAt, TerminatorAt, NextEvent, Filtered;
    var y := x[q..];
    if NextEvent(y).Some? {
      NextEventFacts(y);
      var e := NextEvent(y).value;
      HeadInSuffix(x, q, e.start);
      TerminatorInSuffix(x, q, e.stop);
      NoEvent(x, q + e.start, q + e.stop);
    }
    FilteredNone(y);
  }

  lemma InsideOrBefore(x: Bytes, q: nat)
    requires NextEvent(x).Some? && q < NextEvent(x).value.end
    ensures Count(x[q..]) <= 1 + Count(x[NextEvent(x).value.end..])
  {
    hide HeadAt, TerminatorAt, NextEvent, Count;
    var e, y := NextEvent(x).value, x[q..];
    assert y[e.end - q..] == x[e.end..];
    if q <= e.start {
      NextFrom(x, q);
      FilteredSome(y);
    } else {
      NextInside(x, q);
      if NextEvent(y).Some? && q + NextEvent(y).value.end == e.end {
        FilteredSome(y);
      } else {
        forall k | 0 <= k < e.end - q ensures !HeadAt(y, k) {
          HeadInSuffix(x, q, k);
        }
        SkipKeys(y, e.end - q);
      }
    }
  }

  // ---- what taking part of the input does to the events ----

  lemma InPrefix(b: Bytes, y: Bytes)
    ensures forall k: nat :: k + |HEAD| <= |b| ==> (HeadAt(b + y, k) <==> HeadAt(b, k))
    ensures forall k: nat :: TerminatorAt(b, k) ==> TerminatorAt(b + y, k)
    ensures forall k: nat :: k + 1 < |b| && TerminatorAt(b + y, k) ==> TerminatorAt(b, k)
  {
    forall k: nat | k + |HEAD| <= |b| ensures HeadAt(b + y, k) <==> HeadAt(b, k) {
      HeadInPrefix(b, y, k);
    }
  }

  /** An event that is whole in b is the first one still when more follows. */
  lemma EventKept(b: Bytes, y: Bytes)
    requires NextEvent(b).Some?
    ensures NextEvent(b + y) == NextEvent(b)
    ensures (b + y)[NextEvent(b).value.end..] == b[NextEvent(b).value.end..] + y
    ensures EventOf(b + y, NextEvent(b).value) == EventOf(b, NextEvent(b).value)
    ensures (b + y)[..NextEvent(b).value.start] == b[..NextEvent(b).value.start]
  {
    hide HeadAt, TerminatorAt, NextEvent;
    NextEventFacts(b);
    InPrefix(b, y);
    var e := NextEvent(b).value;
    assert forall k :: 0 <= k < |b| ==> (b + y)[k] == b[k];
    NextEventIs(b + y, e.start, e.stop);
  }

  lemma TakeFirst(b: Bytes)
    requires NextEvent(b).Some?
    ensures var e := NextEvent(b).value;
      && Take(b).0 == [Keys(b[..e.start]), EventOf(b, e)] + Take(b[e.end..]).0
      && Take(b).1 == Take(b[e.end..]).1
  {
    hide HeadAt, TerminatorAt, TerminatorFrom, IndexFrom, Take;
    var i := IndexFrom(b, 0).value;
    HeadFits(b, i);
    var (end, n) := TerminatorFrom(b[i + |HEAD|..], 0).value;
    TakeAt(b, i, end, n);
    CutFrom(b, i + |HEAD|, end, n);
  }

  lemma TakeEvent(b: Bytes)
    requires NextEvent(b).Some?
    ensures var e := NextEvent(b).value;
      && Take(b).0 == [Keys(b[..e.start]), EventOf(b, e)] + Take(b[e.end..]).0
      && Take(b).1 == Take(b[e.end..]).1
      && KeysOf(Take(b).0) == b[..e.start] + KeysOf(Take(b[e.end..]).0)
      && Bodies(Take(b).0) == [EventOf(b, e).body] + Bodies(Take(b[e.end..]).0)
  {
    hide NextEvent, Take, KeysOf, Bodies;
    var e := NextEvent(b).value;
    TakeFirst(b);
    PiecesOf(b[..e.start], EventOf(b, e), Take(b[e.end..]).0);
  }

  /** With no whole event, all but an open head or part of one is passed on, and no head starts before that. */
  lemma TakeNoEvent(b: Bytes) returns (q: nat)
    requires NextEvent(b).None?
    ensures q <= |b| && Take(b).0 == [Keys(b[..q])] && Take(b).1 == b[q..]
    ensures forall k :: 0 <= k < q ==> !HeadAt(b, k)
    ensures IndexFrom(b, 0).Some? ==> HeadAt(b, q)
    ensures IndexFrom(b, 0).None? ==> q == |b| - Partial(b, Longest(b))
  {
    hide HeadAt, TerminatorAt, TerminatorFrom, IndexFrom, Take, Partial;
    var at := IndexFrom(b, 0);
    if at.None? {
      TakeHeld(b);
      q := |b| - Partial(b, Longest(b));
    } else {
      HeadFits(b, at.value);
      TakePart(b, at.value);
      q := at.value;
    }
  }

  lemma {:induction false} TakeCount(b: Bytes, y: Bytes)
    ensures |Bodies(Take(b).0)| + Count(Take(b).1 + y) <= Count(b + y)
    decreases |b|
  {
    hide HeadAt, TerminatorAt, Take, Count, NextEvent, IndexFrom, Partial;
    if NextEvent(b).None? {
      var q := TakeNoEvent(b);
      OneKeys(b[..q]);
      CountFrom(b + y, q);
      assert (b + y)[q..] == b[q..] + y;
    } else {
      var e := NextEvent(b).value;
      TakeEvent(b);
      EventKept(b, y);
      FilteredSome(b + y);
      TakeCount(b[e.end..], y);
    }
  }

  /** However it is read, an input shows no more events than it has. */
  lemma {:induction false} StreamCount(h: Bytes, chunks: seq<Bytes>)
    ensures |Bodies(Stream(h, chunks).0)| <= Count(h + Concat(chunks))
    decreases |chunks|
  {
    hide Take, Count;
    if chunks != [] {
      var b, y := h + chunks[0], Concat(chunks[1..]);
      Assoc(h, chunks[0], y);
      TakeCount(b, y);
      StreamCount(Take(b).1, chunks[1..]);
      BodiesAppend(Take(b).0, Stream(Take(b).1, chunks[1..]).0);
    }
  }

  ghost predicate FirstTerminator(x: Bytes, t: nat) {
    TerminatorAt(x, t) && forall k :: 0 <= k < t ==> !TerminatorAt(x, k)
  }

  /** Only events after the terminator at t are seen, or first one that is too short to begin before the
      input does. */
  ghost predicate ShortOrFewer(x: Bytes, t: nat, seen: seq<Bytes>)
    requires t < |x| && t + TerminatorLength(x, t) <= |x|
  {
    |seen| <= Count(x[t + TerminatorLength(x, t)..]) || (seen != [] && |seen[0]| + |HEAD| <= t)
  }

  lemma WithWholeEvent(b: Bytes, y: Bytes, t: nat, later: seq<Bytes>)
    requires NextEvent(b).Some? && FirstTerminator(b + y, t) && t < |b + y| && t + TerminatorLength(b + y, t) <= |b + y|
    requires |Bodies(Take(b).0) + later| <= Count(b + y)
    ensures ShortOrFewer(b + y, t, Bodies(Take(b).0) + later)
  {
    hide HeadAt, Take, Count, NextEvent, FirstTerminator, Bodies, EventOf, TerminatorLength;
    TakeEvent(b);
    var short := TooShort(b, y, t);
  }

  lemma WithoutEvent(b: Bytes, y: Bytes, q: nat, t: nat, later: seq<Bytes>)
    requires FirstTerminator(b + y, t) && t < |b + y| && t + TerminatorLength(b + y, t) <= |b + y|
    requires q <= |b| && (forall k :: 0 <= k < q ==> !HeadAt(b, k)) && |later| <= Count(b + y)
    requires q <= t ==>
      t - q + TerminatorLength((b + y)[q..], t - q) <= |(b + y)[q..]| && ShortOrFewer((b + y)[q..], t - q, later)
    ensures ShortOrFewer(b + y, t, later)
  {
    hide HeadAt, Count, FirstTerminator, TerminatorLength;
    var x := b + y;
    if q <= t {
      LaterTerminator(x, q, t);
      assert x[q..][t - q + TerminatorLength(x, t)..] == x[t + TerminatorLength(x, t)..];
    } else {
      NoHeadUpTo(b, y, q, t);
      SkipKeys(x, t + TerminatorLength(x, t));
    }
  }

  lemma {:induction false} StreamShortOrFewer(h: Bytes, chunks: seq<Bytes>, t: nat)
    requires FirstTerminator(h + Concat(chunks), t)
    ensures var x := h + Concat(chunks);
      t < |x| && t + TerminatorLength(x, t) <= |x| && ShortOrFewer(x, t, Bodies(Stream(h, chunks).0))
    decreases |chunks|
  {
    hide HeadAt, Take, Count, NextEvent, IndexFrom, Partial, FirstTerminator, Stream, Bodies, TerminatorLength;
    var x := h + Concat(chunks);
    FirstTerminatorFits(x, t);
    if chunks == [] {
      StreamNothing(h);
    } else {
      var b, y := h + chunks[0], Concat(chunks[1..]);
      Assoc(h, chunks[0], y);
      StreamFirst(h, chunks);
      StreamCount(h, chunks);
      var later := Bodies(Stream(Take(b).1, chunks[1..]).0);
      if NextEvent(b).Some? {
        WithWholeEvent(b, y, t, later);
      } else {
        var q := TakeNoEvent(b);
        OneKeys(b[..q]);
        NoneFirst(later);
        CutJoined(b, y, q);
        if q <= t {
          LaterTerminator(x, q, t);
          StreamShortOrFewer(b[q..], chunks[1..], t - q);
        }
        WithoutEvent(b, y, q, t, later);
      }
    }
  }

  lemma StreamNothing(h: Bytes)
    ensures Bodies(Stream(h, []).0) == []
  {
  }

  /** The events of the first read and of the others. */
  lemma StreamFirst(h: Bytes, chunks: seq<Bytes>)
    requires chunks != []
    ensures var b := h + chunks[0];
      && Bodies(Stream(h, chunks).0) == Bodies(Take(b).0) + Bodies(Stream(Take(b).1, chunks[1..]).0)
      && KeysOf(Stream(h, chunks).0) == KeysOf(Take(b).0) + KeysOf(Stream(Take(b).1, chunks[1..]).0)
      && Stream(h, chunks).1 == Stream(Take(b).1, chunks[1..]).1
  {
    hide Take, KeysOf, Bodies;
    var b := h + chunks[0];
    BodiesAppend(Take(b).0, Stream(Take(b).1, chunks[1..]).0);
    KeysAppend(Take(b).0, Stream(Take(b).1, chunks[1..]).0);
  }

  lemma FirstTerminatorFits(x: Bytes, t: nat)
    requires FirstTerminator(x, t)
    ensures t < |x| && t + TerminatorLength(x, t) <= |x| && TerminatorAt(x, t)
  {
  }

  lemma LaterTerminator(x: Bytes, q: nat, t: nat)
    requires FirstTerminator(x, t) && q <= t && t < |x|
    ensures FirstTerminator(x[q..], t - q) && TerminatorLength(x[q..], t - q) == TerminatorLength(x, t)
  {
    TerminatorInSuffix(x, q, t - q);
    forall k | 0 <= k < t - q ensures !TerminatorAt(x[q..], k) {
      TerminatorInSuffix(x, q, k);
    }
  }

  lemma NoHeadUpTo(b: Bytes, y: Bytes, q: nat, t: nat)
    requires FirstTerminator(b + y, t) && t < q <= |b| && forall k :: 0 <= k < q ==> !HeadAt(b, k)
    ensures forall k :: 0 <= k < t + TerminatorLength(b + y, t) ==> !HeadAt(b + y, k)
  {
    hide HeadAt;
    forall k | 0 <= k < t + TerminatorLength(b + y, t) ensures !HeadAt(b + y, k) {
      if HeadAt(b + y, k) {
        HeadOrTerminator(b + y, k, t);
        HeadBytes(b + y, k);
        InPrefix(b, y);
      }
    }
  }

  /** The first event of b ends at the first terminator and is short, or begins after it, and so do all. */
  lemma TooShort(b: Bytes, y: Bytes, t: nat) returns (short: bool)
    requires NextEvent(b).Some? && FirstTerminator(b + y, t) && t + TerminatorLength(b + y, t) <= |b + y|
    ensures short ==> |EventOf(b, NextEvent(b).value).body| + |HEAD| <= t
    ensures !short ==> Count(b + y) == Count((b + y)[t + TerminatorLength(b + y, t)..])
  {
    hide HeadAt, NextEvent, Count;
    NextEventFacts(b);
    InPrefix(b, y);
    var e := NextEvent(b).value;
    short := e.stop == t;
    if !short {
      assert t < e.stop;
      HeadOrTerminator(b + y, e.start, t);
      SkipKeys(b + y, t + TerminatorLength(b + y, t));
    }
  }

  // ---- a read's end inside an event's head ----

  /** Does an event of x start at p? */
  predicate EventStart(x: Bytes, p: int)
    decreases |x|
  {
    NextEvent(x).Some? &&
    (p == NextEvent(x).value.start ||
     (p >= NextEvent(x).value.end && EventStart(x[NextEvent(x).value.end..], p - NextEvent(x).value.end)))
  }

  /** Place c is one or two bytes into an event of x. */
  predicate Cuts(x: Bytes, c: int) {
    EventStart(x, c - 1) || EventStart(x, c - 2)
  }

  lemma {:induction false} StartFacts(x: Bytes, p: int)
    requires EventStart(x, p)
    ensures 0 <= p && HeadAt(x, p) && NextEvent(x).Some?
    ensures p == NextEvent(x).value.start || p >= NextEvent(x).value.end
    decreases |x|
  {
    hide HeadAt, NextEvent;
    NextEventFacts(x);
    var e := NextEvent(x).value;
    if p != e.start {
      StartFacts(x[e.end..], p - e.end);
      HeadInSuffix(x, e.end, p - e.end);
    }
  }

  /** What is held continues the input as if nothing had been taken, as far as events go. */
  ghost predicate SameStarts(b: Bytes, y: Bytes) {
    |Take(b).1| <= |b| &&
    forall p: int :: p >= 0 ==> (EventStart(Take(b).1 + y, p) <==> EventStart(b + y, p + |b| - |Take(b).1|))
  }

  lemma StartsShift(w: Bytes, q: nat, p: int)
    requires q <= |w| && p >= 0 && forall k :: 0 <= k < q ==> !HeadAt(w, k)
    ensures EventStart(w[q..], p) <==> EventStart(w, p + q)
  {
    hide HeadAt, NextEvent;
    if NextEvent(w).Some? {
      NextEventFacts(w);
      var e := NextEvent(w).value;
      NextFrom(w, q);
      assert w[q..][e.end - q..] == w[e.end..];
    } else {
      NoneLater(w, q);
    }
  }

  /** A head that was not held starts one or two bytes before the end of the read. */
  lemma NotHeld(b: Bytes, y: Bytes, q: nat, p: nat)
    requires NextEvent(b).None? && q <= |b| && p < q && HeadAt(b + y, p)
    requires forall k :: 0 <= k < q ==> !HeadAt(b, k)
    requires IndexFrom(b, 0).Some? ==> HeadAt(b, q)
    requires IndexFrom(b, 0).None? ==> q == |b| - Partial(b, Longest(b))
    ensures q == |b| && p >= |b| - 2 && IndexFrom(b, 0).None?
    ensures forall k :: 0 <= k < p ==> !HeadAt(b + y, k)
  {
    hide HeadAt, Partial, IndexFrom, NextEvent;
    InPrefix(b, y);
    if IndexFrom(b, 0).Some? {
      HeadBytes(b, q);
      assert false;
    }
    LongHeld(b, y, p);
    PartialStarts(b, Longest(b), b + y, p);
    forall k | 0 <= k < p ensures !HeadAt(b + y, k) {
      if HeadAt(b + y, k) {
        HeadsApart(b + y, k, p);
      }
    }
  }

  lemma LongHeld(b: Bytes, y: Bytes, p: nat)
    requires IndexFrom(b, 0).None? && p + Partial(b, Longest(b)) < |b| && HeadAt(b + y, p)
    ensures p >= |b| - 2
  {
    hide HeadAt, Partial, IndexFrom;
    if p + |HEAD| <= |b| {
      HeadInPrefix(b, y, p);
    } else if 3 <= |b| - p {
      AcrossIsPartial(b, y, p);
      PartialIsLongest(b, Longest(b), |b| - p);
    }
  }

  /** When the last two bytes begin a head, no longer start of one ends with them. */
  lemma PartialStarts(b: Bytes, k: nat, w: Bytes, p: nat)
    requires k <= |b| && k < |HEAD| && b <= w && |b| - 2 <= p < |b| && HeadAt(w, p)
    ensures Partial(b, k) == 0
  {
    hide HeadAt;
    HeadBytes(w, p);
  }

  /** A read with no whole event in it, its end not inside the head of one: all goes on as if it had not been
      taken. */
  lemma QuietRead(b: Bytes, y: Bytes)
    requires NextEvent(b).None? && !Cuts(b + y, |b|)
    ensures Continues(b, y) && SameStarts(b, y)
  {
    hide HeadAt, Take, NextEvent, EventStart, IndexFrom, Partial, Continues;
    var q := TakeNoEvent(b);
    var w := b + y;
    CutJoined(b, y, q);
    if exists k :: 0 <= k < q && HeadAt(w, k) {
      var p :| 0 <= p < q && HeadAt(w, p);
      NotHeld(b, y, q, p);
      StartIsNext(w, p);
      NoneLater(w, |b|);
      OpenStays(b, y);
    } else {
      KeysThenHeld(b, y, q);
      forall p: int | p >= 0 ensures EventStart(b[q..] + y, p) <==> EventStart(w, p + q) {
        StartsShift(w, q, p);
      }
    }
  }

  lemma StartIsNext(w: Bytes, p: nat)
    requires HeadAt(w, p) && forall k :: 0 <= k < p ==> !HeadAt(w, k)
    ensures NextEvent(w).Some? ==> NextEvent(w).value.start == p && EventStart(w, p)
  {
    hide HeadAt, NextEvent;
    if NextEvent(w).Some? {
      NextEventFacts(w);
    }
  }

  /** Past a whole event, the read's end is in the head of one exactly when it is for what follows. */
  lemma CutsAfter(b: Bytes, y: Bytes)
    requires NextEvent(b).Some?
    ensures var e := NextEvent(b).value;
      && (Cuts(b + y, |b|) <==> Cuts(b[e.end..] + y, |b| - e.end))
      && forall p :: p >= 0 ==> (EventStart(b[e.end..] + y, p) <==> EventStart(b + y, p + e.end))
  {
    hide HeadAt, NextEvent;
    EventKept(b, y);
    var e := NextEvent(b).value;
    var rest := b[e.end..] + y;
    forall p: int | EventStart(rest, p) ensures p >= 0 {
      StartFacts(rest, p);
    }
    NextEventFits(b);
  }

  lemma NextEventFits(b: Bytes)
    requires NextEvent(b).Some?
    ensures NextEvent(b).value.start + 1 < NextEvent(b).value.end - 1
  {
    hide IndexFrom, TerminatorFrom, HeadAt, TerminatorAt;
  }

  /** Unless a read ends one or two bytes into an event, all goes on as if it had not been taken. */
  lemma {:induction false} ReadContinues(b: Bytes, y: Bytes)
    requires !Cuts(b + y, |b|)
    ensures Continues(b, y) && SameStarts(b, y)
    decreases |b|
  {
    hide HeadAt, Take, NextEvent, EventStart, Continues, Filtered, KeysOf, Bodies, Cuts;
    if NextEvent(b).None? {
      QuietRead(b, y);
    } else {
      var e := NextEvent(b).value;
      var more := b[e.end..];
      CutsAfter(b, y);
      ReadContinues(more, y);
      TakeEvent(b);
      EventKept(b, y);
      FilteredSome(b + y);
      ContinuesAfter(b, y);
      forall p: int | p >= 0 ensures EventStart(Take(b).1 + y, p) <==> EventStart(b + y, p + |b| - |Take(b).1|) {
        assert EventStart(Take(more).1 + y, p) <==> EventStart(more + y, p + |more| - |Take(more).1|);
      }
    }
  }

  lemma ContinuesAfter(b: Bytes, y: Bytes)
    requires NextEvent(b).Some? && Continues(b[NextEvent(b).value.end..], y)
    ensures Continues(b, y)
  {
    hide HeadAt, TerminatorAt, TerminatorFrom, IndexFrom, Continues;
    var i := IndexFrom(b, 0).value;
    HeadFits(b, i);
    var (end, n) := TerminatorFrom(b[i + |HEAD|..], 0).value;
    assert b[i + |HEAD|..][end + n..] == b[NextEvent(b).value.end..];
    EventThenMore(b, y, i, end, n);
  }

  lemma OpenStays(b: Bytes, y: Bytes)
    requires Take(b).0 == [Keys(b)] && Take(b).1 == "" && NextEvent(b + y).None? && NextEvent(y).None?
    ensures Continues(b, y) && SameStarts(b, y)
  {
    hide Take, NextEvent, Filtered, KeysOf, Bodies;
    FilteredNone(b + y);
    FilteredNone(y);
    NoneFirst(y);
    OneKeys(b);
    OneKeys(y);
    OneKeys(b + y);
    NoneFirst<Bytes>([]);
  }

  /** When a read ends one or two bytes into an event, that event is not reported. */
  lemma {:induction false} EventIsLost(b: Bytes, chunks: seq<Bytes>)
    requires Cuts(b + Concat(chunks), |b|)
    ensures Bodies(Take(b).0) + Bodies(Stream(Take(b).1, chunks).0) != Bodies(Filtered(b + Concat(chunks)))
    decreases |b|
  {
    hide HeadAt, Take, NextEvent, EventStart, Filtered, Bodies, Cuts, Stream;
    var y := Concat(chunks);
    if NextEvent(b).None? {
      HeadIsLost(b, chunks);
    } else {
      var e := NextEvent(b).value;
      CutsAfter(b, y);
      EventIsLost(b[e.end..], chunks);
      TakeEvent(b);
      EventKept(b, y);
      FilteredSome(b + y);
      var body := EventOf(b, e).body;
      Assoc([body], Bodies(Take(b[e.end..]).0), Bodies(Stream(Take(b).1, chunks).0));
      SameFirst(body, Bodies(Take(b[e.end..]).0) + Bodies(Stream(Take(b).1, chunks).0),
        Bodies(Filtered(b[e.end..] + y)));
    }
  }

  lemma SameFirst<T>(x: T, s: seq<T>, t: seq<T>)
    ensures [x] + s == [x] + t ==> s == t
  {
    assert ([x] + s)[1..] == s && ([x] + t)[1..] == t;
  }

  /** A place past a read's end, in the whole and in what came after. */
  lemma PastRead(b: Bytes, y: Bytes, s: nat)
    requires |b| <= s < |b + y| && s + TerminatorLength(b + y, s) <= |b + y|
    ensures
      var n := TerminatorLength(y, s - |b|);
      TerminatorLength(b + y, s) == n && s + n <= |b + y| && (b + y)[s + n..] == y[s - |b| + n..]
  {
  }

  lemma HeadIsLost(b: Bytes, chunks: seq<Bytes>)
    requires NextEvent(b).None? && Cuts(b + Concat(chunks), |b|)
    ensures Bodies(Take(b).0) + Bodies(Stream(Take(b).1, chunks).0) != Bodies(Filtered(b + Concat(chunks)))
  {
    hide HeadAt, Take, NextEvent, Filtered, Bodies, Stream, Partial, IndexFrom, ShortOrFewer, FirstTerminator,
      TerminatorAt, Count, EventStart, TerminatorLength;
    var y := Concat(chunks);
    var w := b + y;
    var p := if EventStart(w, |b| - 1) then |b| - 1 else |b| - 2;
    StartFacts(w, p);
    var q := CutHead(b, y, p);
    var e := NextEvent(w).value;
    var t := e.stop - |b|;
    OneKeys(b);
    NoneFirst(y);
    StreamShortOrFewer("", chunks, t);
    var seen := Bodies(Stream("", chunks).0);
    NoneFirst(seen);
    PastRead(b, y, e.stop);
    Missing(y, t, seen, w);
  }

  lemma Missing(y: Bytes, t: nat, seen: seq<Bytes>, w: Bytes)
    requires NextEvent(w).Some? && t < |y| && t + TerminatorLength(y, t) <= |y| && ShortOrFewer(y, t, seen)
    requires y[t + TerminatorLength(y, t)..] == w[NextEvent(w).value.end..]
    requires t < NextEvent(w).value.stop - NextEvent(w).value.start
    ensures seen != Bodies(Filtered(w))
  {
    hide NextEvent, Filtered, Bodies;
    FilteredSome(w);
  }

  /** The first event of an input that has none in its first part, when one starts near that part's end. */
  lemma HeadIsNext(b: Bytes, y: Bytes, p: nat)
    requires NextEvent(b).None? && EventStart(b + y, p) && p < |b|
    ensures NextEvent(b + y).value.start == p
  {
    hide HeadAt, NextEvent, TerminatorAt;
    var w := b + y;
    StartFacts(w, p);
    NextEventFacts(w);
    var e := NextEvent(w).value;
    if p >= e.end {
      InPrefix(b, y);
      NextEventFits(w);
      NoEvent(b, e.start, e.stop);
    }
  }

  lemma HeldStart(b: Bytes, y: Bytes, q: nat, p: nat)
    requires q <= |b| && |b| - 2 <= p < |b| && HeadAt(b + y, p) && forall k :: 0 <= k < p ==> !HeadAt(b + y, k)
    requires IndexFrom(b, 0).Some? ==> HeadAt(b, q)
    requires IndexFrom(b, 0).None? ==> q == |b| - Partial(b, Longest(b))
    ensures p < q
  {
    hide HeadAt, Partial, IndexFrom;
    if IndexFrom(b, 0).Some? {
      HeadBytes(b, q);
      InPrefix(b, y);
    } else {
      PartialStarts(b, Longest(b), b + y, p);
    }
  }

  lemma CutHead(b: Bytes, y: Bytes, p: nat) returns (q: nat)
    requires NextEvent(b).None? && EventStart(b + y, p) && |b| - 2 <= p < |b|
    ensures q == |b| && Take(b).0 == [Keys(b)] && Take(b).1 == ""
    ensures NextEvent(b + y).Some? && NextEvent(b + y).value.start == p && NextEvent(b + y).value.stop >= |b|
    ensures FirstTerminator(y, NextEvent(b + y).value.stop - |b|)
    ensures var e := NextEvent(b + y).value; e.stop < |b + y| && e.end == e.stop + TerminatorLength(b + y, e.stop)
  {
    hide HeadAt, Take, NextEvent, Partial, IndexFrom, TerminatorAt;
    var w := b + y;
    q := TakeNoEvent(b);
    StartFacts(w, p);
    NextEventFacts(w);
    var e := NextEvent(w).value;
    HeadIsNext(b, y, p);
    HeldStart(b, y, q, p);
    NotHeld(b, y, q, p);
    assert b[..|b|] == b && b[|b|..] == "";
    assert w[|b|..] == y;
    forall k | 0 <= k < e.stop - |b| ensures !TerminatorAt(y, k) {
      TerminatorInSuffix(w, |b|, k);
      if TerminatorAt(w, |b| + k) {
        HeadOrTerminator(w, p, |b| + k);
      }
    }
    TerminatorInSuffix(w, |b|, e.stop - |b|);
  }

  // ---- all the reads ----

  /** No read ends one or two bytes into an event, what is held at each being put before the next. */
  ghost predicate Unhurt(h: Bytes, chunks: seq<Bytes>)
    decreases |chunks|
  {
    chunks == [] ||
    (!Cuts(h + Concat(chunks), |h + chunks[0]|) && Unhurt(Take(h + chunks[0]).1, chunks[1..]))
  }

  /** The keys and events of the reads are those of the input read whole. */
  ghost predicate AsWhole(h: Bytes, chunks: seq<Bytes>) {
    var (ps, last) := Stream(h, chunks);
    var whole := Filtered(h + Concat(chunks));
    KeysOf(ps) + last == KeysOf(whole) && Bodies(ps) == Bodies(whole)
  }

  lemma {:induction false} WholeIfUnhurt(h: Bytes, chunks: seq<Bytes>)
    requires Filtered(h) == [Keys(h)]
    ensures AsWhole(h, chunks) <==> Unhurt(h, chunks)
    decreases |chunks|
  {
    hide HeadAt, Take, Cuts, Filtered, Continues, Stream, KeysOf, Bodies;
    if chunks == [] {
      NothingRead(h);
    } else {
      var b, y := h + chunks[0], Concat(chunks[1..]);
      Assoc(h, chunks[0], y);
      StreamFirst(h, chunks);
      if Cuts(b + y, |b|) {
        EventIsLost(b, chunks[1..]);
      } else {
        ReadContinues(b, y);
        HeldIsKeys(b);
        WholeIfUnhurt(Take(b).1, chunks[1..]);
        SameAfter(b, chunks);
      }
    }
  }

  lemma NothingRead(h: Bytes)
    requires Filtered(h) == [Keys(h)]
    ensures AsWhole(h, [])
  {
    hide Filtered;
    OneKeys(h);
    assert h + "" == h;
    NoneFirst(h);
  }

  lemma SameAfter(b: Bytes, chunks: seq<Bytes>)
    requires chunks != [] && Continues(b, Concat(chunks[1..]))
    ensures
      var y, h := Concat(chunks[1..]), Take(b).1;
      var (ps, last) := Stream(h, chunks[1..]);
      (KeysOf(Take(b).0) + KeysOf(ps) + last == KeysOf(Filtered(b + y)) &&
       Bodies(Take(b).0) + Bodies(ps) == Bodies(Filtered(b + y)))
      <==> AsWhole(h, chunks[1..])
  {
    hide Take, Stream, KeysOf, Bodies, Filtered;
    var y, h := Concat(chunks[1..]), Take(b).1;
    var (ps, last) := Stream(h, chunks[1..]);
    Assoc(KeysOf(Take(b).0), KeysOf(ps), last);
    CancelFront(KeysOf(Take(b).0), KeysOf(ps) + last, KeysOf(Filtered(h + y)));
    CancelFront(Bodies(Take(b).0), Bodies(ps), Bodies(Filtered(h + y)));
  }

  lemma CancelFront<T>(a: seq<T>, s: seq<T>, t: seq<T>)
    ensures a + s == a + t <==> s == t
  {
    if a + s == a + t {
      assert s == (a + s)[|a|..] && t == (a + t)[|a|..];
    }
  }

  /** No read ends one or two bytes into an event of x. The reads begin at place from. */
  predicate NoneDivided(x: Bytes, from: nat, chunks: seq<Bytes>)
    decreases |chunks|
  {
    chunks == [] || (!Cuts(x, from + |chunks[0]|) && NoneDivided(x, from + |chunks[0]|, chunks[1..]))
  }

  lemma {:induction false} DividedShift(x: Bytes, z: Bytes, s: int, from: nat, chunks: seq<Bytes>)
    requires from + s >= 0
    requires forall p: int :: EventStart(z, p) <==> p >= 0 && EventStart(x, p + s)
    requires from == 0 ==> !EventStart(x, s - 1) && !EventStart(x, s - 2)
    requires from == 1 ==> !EventStart(x, s - 1)
    ensures NoneDivided(x, from + s, chunks) <==> NoneDivided(z, from, chunks)
    decreases |chunks|
  {
    hide EventStart;
    if chunks != [] {
      var c := from + |chunks[0]|;
      assert Cuts(x, c + s) <==> Cuts(z, c);
      DividedShift(x, z, s, c, chunks[1..]);
    }
  }

  lemma {:induction false} UnhurtIsUndivided(h: Bytes, chunks: seq<Bytes>)
    ensures Unhurt(h, chunks) <==> NoneDivided(h + Concat(chunks), |h|, chunks)
    decreases |chunks|
  {
    hide Take, EventStart;
    if chunks != [] {
      var b, y := h + chunks[0], Concat(chunks[1..]);
      var x := b + y;
      Assoc(h, chunks[0], y);
      if !Cuts(x, |b|) {
        ReadContinues(b, y);
        var held := Take(b).1;
        UnhurtIsUndivided(held, chunks[1..]);
        forall p: int ensures EventStart(held + y, p) <==> p >= 0 && EventStart(x, p + |b| - |held|) {
          if EventStart(held + y, p) { StartFacts(held + y, p); }
        }
        DividedShift(x, held + y, |b| - |held|, |held|, chunks[1..]);
      }
    }
  }

  /** Is there an event among the pieces that starts at p, the first piece being at place at? */
  predicate PieceStart(ps: seq<Piece>, at: nat, p: int)
    decreases |ps|
  {
    ps != [] && ((ps[0].Event? && p == at) || PieceStart(ps[1..], at + |ps[0].Text()|, p))
  }

  lemma {:induction false} PieceShift(ps: seq<Piece>, at: nat, p: int)
    ensures PieceStart(ps, at, p) <==> PieceStart(ps, 0, p - at)
    decreases |ps|
  {
    if ps != [] {
      PieceShift(ps[1..], at + |ps[0].Text()|, p);
      PieceShift(ps[1..], |ps[0].Text()|, p - at);
    }
  }

  /** The places where events start are those of the event pieces of the input read whole. */
  lemma {:induction false} StartIsPiece(x: Bytes, p: int)
    ensures EventStart(x, p) <==> PieceStart(Filtered(x), 0, p)
    decreases |x|
  {
    hide NextEvent, Filtered;
    if NextEvent(x).None? {
      FilteredNone(x);
      assert [Keys(x)][1..] == [];
    } else {
      var e := NextEvent(x).value;
      var rest := Filtered(x[e.end..]);
      FilteredSome(x);
      StartIsPiece(x[e.end..], p - e.end);
      var all := [Keys(x[..e.start]), EventOf(x, e)] + rest;
      assert all[1..] == [EventOf(x, e)] + rest && all[1..][1..] == rest;
      PieceShift(rest, e.end, p);
      NextEventFacts(x);
      EventLength(x, e);
      if PieceStart(rest, 0, p - e.end) {
        StartFacts(x[e.end..], p - e.end);
      }
    }
  }

  lemma EventLength(x: Bytes, e: Place)
    requires NextEvent(x) == Some(e) && IsNext(x, e.start, e.stop)
    ensures |EventOf(x, e).Text()| == e.end - e.start
  {
    hide NextEvent;
  }

  /** The keys and events do not depend on the reads exactly when no read ends one or two bytes into an event
      of the input. */
  lemma ReadsAsWhole(chunks: seq<Bytes>)
    ensures
      var (ps, last) := Stream("", chunks);
      var whole := Filtered(Concat(chunks));
      (KeysOf(ps) + last == KeysOf(whole) && Bodies(ps) == Bodies(whole)) <==> NoneDivided(Concat(chunks), 0, chunks)
  {
    hide Filtered, Stream, NoneDivided, Unhurt, KeysOf, Bodies;
    NoneFirst(Concat(chunks));
    EmptyIsKeys();
    WholeIfUnhurt("", chunks);
    UnhurtIsUndivided("", chunks);
  }

  lemma EmptyIsKeys()
    ensures Filtered("") == [Keys("")]
  {
  }
}
