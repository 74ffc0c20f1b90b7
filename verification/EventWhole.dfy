/** What the event filter sees of input that is keys and events one after another (progressive/events.go). */
module EventWhole {
  import opened Wrappers
  import opened EventFilter

  /** No head begins in the keys, nor could one at their end. */
  ghost predicate NoHead(b: Bytes) {
    forall i :: 0 <= i < |b| ==> Differs(b, i)
  }

  /** Within b, what is at i is not how a head goes. */
  ghost predicate Differs(b: Bytes, i: nat) {
    exists k :: 0 <= k < |HEAD| && i + k < |b| && b[i + k] != HEAD[k]
  }

  /** Keys with no beginning of an event, or an event with nothing in it that ends one, ended by BEL or ESC \. */
  ghost predicate Clear(p: Piece) {
    match p
    case Keys(b) => NoHead(b)
    case Event(body, end) =>
      (end == [BEL] || end == [ESC, '\\']) &&
      forall i :: 0 <= i < |body| ==> body[i] != BEL && !(body[i] == ESC && i + 1 < |body| && body[i + 1] == '\\')
  }

  lemma NoHeadBefore(b: Bytes, rest: Bytes, i: nat)
    requires NoHead(b) && i < |b|
    ensures !HeadAt(b + rest, i)
  {
    assert Differs(b, i);
    var k :| 0 <= k < |HEAD| && i + k < |b| && b[i + k] != HEAD[k];
    assert (b + rest)[i + k] == b[i + k];
  }

  /** Keys before it are passed on, and the rest is filtered as if they were not there. */
  lemma KeysPass(b: Bytes, rest: Bytes)
    requires NoHead(b)
    ensures KeysOf(Filtered(b + rest)) == b + KeysOf(Filtered(rest))
    ensures Bodies(Filtered(b + rest)) == Bodies(Filtered(rest))
  {
    hide HeadAt, NoHead, Filtered;
    forall i | 0 <= i < |b| ensures !HeadAt(b + rest, i) {
      NoHeadBefore(b, rest, i);
    }
    KeysBefore(b + rest, |b|);
    assert (b + rest)[..|b|] == b && (b + rest)[|b|..] == rest;
  }

  lemma {:induction false} EndIs(b: Bytes, i: nat, end: nat)
    requires i <= end && TerminatorAt(b, end) && forall k :: i <= k < end ==> !TerminatorAt(b, k)
    ensures TerminatorFrom(b, i) == Some((end, if b[end] == BEL then 1 else 2))
    decreases end - i
  {
    if i < end {
      assert !TerminatorAt(b, i);
      EndIs(b, i + 1, end);
    }
  }

  lemma BodyEnds(body: Bytes, end: Bytes, rest: Bytes)
    requires Clear(Event(body, end))
    ensures TerminatorFrom(body + (end + rest), 0) == Some((|body|, |end|))
  {
    var b := body + (end + rest);
    assert b[|body|] == end[0];
    if end[0] == ESC { assert b[|body| + 1] == end[1]; }
    forall k | 0 <= k < |body| ensures !TerminatorAt(b, k) {
      assert b[k] == body[k];
      if k + 1 < |body| { assert b[k + 1] == body[k + 1]; } else { assert b[k + 1] == end[0]; }
    }
    EndIs(b, 0, |body|);
  }

  lemma HeadIsFirst(rest: Bytes)
    ensures IndexFrom(HEAD + rest, 0) == Some(0)
  {
    assert HeadAt(HEAD + rest, 0);
  }

  lemma EventParts(body: Bytes, end: Bytes, rest: Bytes)
    ensures
      var tail := body + (end + rest);
      && HEAD + body + end + rest == HEAD + tail && (HEAD + tail)[|HEAD|..] == tail && (HEAD + tail)[..0] == ""
      && tail[..|body|] == body && tail[|body|..|body| + |end|] == end && tail[|body| + |end|..] == rest
  {
  }

  /** An event is taken out whole. */
  lemma EventTaken(body: Bytes, end: Bytes, rest: Bytes)
    requires Clear(Event(body, end))
    ensures Filtered(Event(body, end).Text() + rest) == [Keys(""), Event(body, end)] + Filtered(rest)
  {
    hide IndexFrom, TerminatorFrom, HeadAt;
    EventParts(body, end, rest);
    HeadIsFirst(body + (end + rest));
    BodyEnds(body, end, rest);
  }

  /** Of keys and events one after another the filter passes on just the keys, in order, and reports just the events. */
  lemma {:induction false} FilterSeesAll(ps: seq<Piece>)
    requires forall p :: p in ps ==> Clear(p)
    ensures KeysOf(Filtered(Texts(ps))) == KeysOf(ps) && Bodies(Filtered(Texts(ps))) == Bodies(ps)
    decreases |ps|
  {
    hide Filtered, Clear;
    if ps == [] {
      NothingFiltered();
    } else {
      var rest := Texts(ps[1..]);
      assert ps[0] in ps && forall p :: p in ps[1..] ==> p in ps;
      FilterSeesAll(ps[1..]);
      match ps[0]
      case Keys(b) =>
        ClearKeys(b);
        KeysPass(b, rest);
        assert [] + Bodies(ps[1..]) == Bodies(ps[1..]);
      case Event(body, end) =>
        EventTaken(body, end, rest);
        PiecesOf("", Event(body, end), Filtered(rest));
    }
  }

  lemma ClearKeys(b: Bytes)
    requires Clear(Keys(b))
    ensures NoHead(b)
  {
  }

  lemma NothingFiltered()
    ensures KeysOf(Filtered("")) == "" && Bodies(Filtered("")) == []
  {
    OneKeys("");
  }
}
