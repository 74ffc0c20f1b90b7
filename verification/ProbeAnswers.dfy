/** The probe takes out the answers that arrived, all of them (progressive/progressive.go, scan). */
module ProbeAnswers {
  import opened Wrappers
  import opened EventFilter
  import EventWhole
  import opened Probe

  // ---- what a terminal sends ----

  datatype Kind = Caps | Kitty | Version | Attributes

  /** What comes in: something typed; an answer that is a string, with how it ends; the attributes that end the answers;
      or another report that begins like them. */
  datatype Item =
    | Typed(text: Bytes) | Answer(kind: Kind, body: Bytes, bell: bool) | Device(attrs: Bytes)
    | Report(params: Bytes, final: char)
  {
    /** Nothing in it is taken for an answer: what is typed has no beginning of one, what is answered has none and no
        end, and reports do not end as attributes do. */
    ghost predicate Valid() {
      match this
      case Typed(text) => Harmless(text)
      case Answer(kind, body, _) => kind != Attributes && Body(body)
      case Device(attrs) => forall i :: 0 <= i < |attrs| ==> Parameter(attrs[i])
      case Report(params, final) =>
        final != 'c' && final != ESC && !Parameter(final) && forall i :: 0 <= i < |params| ==> Parameter(params[i])
    }

    function Text(): Bytes {
      match this
      case Typed(text) => text
      case Answer(kind, body, bell) => Head(kind) + body + if bell then [BEL] else [ESC, '\\']
      case Device(attrs) => DA1_REPLY + attrs + ['c']
      case Report(params, final) => DA1_REPLY + params + [final]
    }

    predicate Is(kind: Kind) {
      (Answer? && this.kind == kind) || (Device? && kind == Attributes)
    }
  }

  /** What the parameters of a report are made of: digits and semicolons. */
  predicate Parameter(c: char) {
    c in "0123456789;"
  }

  function Head(kind: Kind): Bytes {
    match kind
    case Caps => CAPS_REPLY
    case Kitty => KITTY_REPLY
    case Version => XT_REPLY
    case Attributes => DA1_REPLY
  }

  /** Does an answer, or a report, begin at b[i]? */
  predicate Begins(b: Bytes, i: nat) {
    i + 1 < |b| && b[i] == ESC &&
    (b[i + 1] == ']' || b[i + 1] == '_' || b[i + 1] == 'P' || (b[i + 1] == '[' && i + 2 < |b| && b[i + 2] == '?'))
  }

  /** No beginning of an answer is in it, nor could one be at its end. */
  ghost predicate Harmless(s: Bytes) {
    forall i :: 0 <= i < |s| && s[i] == ESC ==> i + 1 < |s| && (s[i + 1] == '[' ==> i + 2 < |s|) && !Begins(s, i)
  }

  /** No BEL, and no ESC before what would make it the end of a string or the beginning of an answer. */
  ghost predicate Body(s: Bytes) {
    forall i :: 0 <= i < |s| ==> s[i] != BEL && (s[i] == ESC && i + 1 < |s| ==> Plain(s[i + 1]))
  }

  predicate Plain(c: char) {
    c != '\\' && c != ']' && c != '_' && c != 'P' && c != '['
  }

  function Texts(items: seq<Item>): Bytes {
    if items == [] then "" else items[0].Text() + Texts(items[1..])
  }

  /** The items without the first of a kind. */
  function Without(items: seq<Item>, kind: Kind): seq<Item> {
    if items == [] then [] else if items[0].Is(kind) then items[1..] else [items[0]] + Without(items[1..], kind)
  }

  ghost predicate AllValid(items: seq<Item>) {
    forall item :: item in items ==> item.Valid()
  }

  lemma {:induction false} WithoutValid(items: seq<Item>, kind: Kind)
    requires AllValid(items)
    ensures AllValid(Without(items, kind))
    decreases |items|
  {
    if items != [] {
      assert forall item :: item in items[1..] ==> item in items;
      WithoutValid(items[1..], kind);
    }
  }

  // ---- looking for a head ----

  predicate MatchAt(b: Bytes, pat: Bytes, i: nat) {
    i + |pat| <= |b| && b[i..i + |pat|] == pat
  }

  lemma {:induction false} FindFrom(b: Bytes, pat: Bytes, i: nat, j: nat)
    requires i <= j && forall k :: i <= k < j ==> !MatchAt(b, pat, k)
    requires MatchAt(b, pat, j) || forall k :: i <= k ==> !MatchAt(b, pat, k)
    ensures Find(b, pat, i) == if MatchAt(b, pat, j) then Some(j) else None
    decreases |b| - i, j - i
  {
    if i + |pat| <= |b| && !MatchAt(b, pat, i) {
      FindFrom(b, pat, i + 1, if i < j then j else j + 1);
    }
  }

  lemma {:induction false} FindMeans(b: Bytes, pat: Bytes, i: nat)
    ensures match Find(b, pat, i)
      case None => forall k :: i <= k ==> !MatchAt(b, pat, k)
      case Some(j) => MatchAt(b, pat, j) && forall k :: i <= k < j ==> !MatchAt(b, pat, k)
    decreases |b| - i
  {
    if i + |pat| <= |b| && b[i..i + |pat|] != pat {
      FindMeans(b, pat, i + 1);
    }
  }

  lemma MatchMoves(a: Bytes, b: Bytes, pat: Bytes, k: nat)
    ensures MatchAt(a + b, pat, |a| + k) <==> MatchAt(b, pat, k)
  {
    if |a| + k + |pat| <= |a + b| {
      assert (a + b)[|a| + k..|a| + k + |pat|] == b[k..k + |pat|];
    }
  }

  function Moved(i: Option<nat>, n: nat): Option<nat> {
    match i case None => None case Some(k) => Some(n + k)
  }

  /** With no match beginning in a, what is found in a + b is what is found in b. */
  lemma FindPast(a: Bytes, b: Bytes, pat: Bytes, i: nat)
    requires i <= |a| && forall k :: i <= k < |a| ==> !MatchAt(a + b, pat, k)
    ensures Find(a + b, pat, i) == Moved(Find(b, pat, 0), |a|)
  {
    hide Find, MatchAt;
    FindMeans(b, pat, 0);
    var f := Find(b, pat, 0);
    var j := |a| + if f.Some? then f.value else 0;
    forall k | i <= k && (f.Some? ==> k < j) ensures !MatchAt(a + b, pat, k) {
      if k >= |a| {
        MatchMoves(a, b, pat, k - |a|);
      }
    }
    MatchMoves(a, b, pat, j - |a|);
    FindFrom(a + b, pat, i, j);
  }

  /** A head matches only where something begins, and only one. */
  lemma MatchBegins(b: Bytes, kind: Kind, i: nat)
    requires MatchAt(b, Head(kind), i)
    ensures Begins(b, i)
    ensures b[i + 1] == match kind case Caps => ']' case Kitty => '_' case Version => 'P' case Attributes => '['
  {
    var h := Head(kind);
    assert b[i] == h[0] && b[i + 1] == h[1];
    if kind == Attributes { assert b[i + 2] == h[2]; }
  }

  // ---- one item ----

  lemma HarmlessBefore(s: Bytes, rest: Bytes, i: nat)
    requires Harmless(s) && i < |s|
    ensures !Begins(s + rest, i)
  {
    if s[i] == ESC {
      assert !Begins(s, i);
    }
  }

  /** Inside an answer nothing begins. */
  lemma InsideAnswer(kind: Kind, body: Bytes, end: Bytes, rest: Bytes, i: nat)
    requires Body(body) && (end == [BEL] || end == [ESC, '\\']) && 0 < i < |Head(kind) + body + end|
    ensures !Begins(Head(kind) + body + end + rest, i)
  {
    var h := Head(kind);
    var b := h + body + end + rest;
    if i < |h| {
      assert b[i] == h[i] != ESC;
    } else if i < |h| + |body| {
      assert b[i] == body[i - |h|];
      if i + 1 < |h| + |body| {
        assert b[i + 1] == body[i - |h| + 1];
      } else {
        assert b[i + 1] == end[0];
      }
    } else if i - |h| - |body| == 0 {
      assert b[i] == end[0];
      if end[0] == ESC { assert b[i + 1] == end[1]; }
    } else {
      assert b[i] == end[1];
    }
  }

  lemma InsideReport(params: Bytes, final: char, rest: Bytes, i: nat)
    requires final != ESC && (forall k :: 0 <= k < |params| ==> Parameter(params[k])) && 0 < i < |params| + 4
    ensures !Begins(DA1_REPLY + params + [final] + rest, i)
  {
    var b := DA1_REPLY + params + [final] + rest;
    if i < 3 {
      assert b[i] == DA1_REPLY[i];
    } else if i < 3 + |params| {
      assert b[i] == params[i - 3];
    } else {
      assert b[i] == final;
    }
  }

  /** After its first place nothing begins in an item, and what is typed has nothing there either. */
  lemma NothingInside(item: Item, rest: Bytes, i: nat)
    requires item.Valid() && i < |item.Text()| && (item.Typed? || i > 0)
    ensures !Begins(item.Text() + rest, i)
  {
    hide Begins;
    match item
    case Typed(text) => HarmlessBefore(text, rest, i);
    case Answer(kind, body, bell) => InsideAnswer(kind, body, if bell then [BEL] else [ESC, '\\'], rest, i);
    case Device(attrs) => InsideReport(attrs, 'c', rest, i);
    case Report(params, final) => InsideReport(params, final, rest, i);
  }

  /** No head of another kind matches inside an item. */
  lemma OtherKind(item: Item, rest: Bytes, kind: Kind, i: nat)
    requires item.Valid() && i < |item.Text()| && !item.Is(kind) && (kind == Attributes ==> !item.Report?)
    ensures !MatchAt(item.Text() + rest, Head(kind), i)
  {
    var b := item.Text() + rest;
    if MatchAt(b, Head(kind), i) {
      MatchBegins(b, kind, i);
      if i > 0 || item.Typed? {
        NothingInside(item, rest, i);
      } else {
        FirstTwo(item, rest);
      }
    }
  }

  lemma FirstTwo(item: Item, rest: Bytes)
    requires !item.Typed?
    ensures
      var b := item.Text() + rest;
      |b| > 1 && b[1] == if item.Answer? then Head(item.kind)[1] else '['
  {
    if item.Answer? {
      assert item.Text()[1] == Head(item.kind)[1];
    } else {
      assert item.Text()[1] == DA1_REPLY[1];
    }
  }

  lemma HereIsFound(b: Bytes, pat: Bytes, rest: Bytes)
    requires b == pat + rest
    ensures Find(b, pat, 0) == Some(0)
  {
    assert b[0..0 + |pat|] == pat;
  }

  lemma BodyIsClear(body: Bytes, end: Bytes)
    requires Body(body) && (end == [BEL] || end == [ESC, '\\'])
    ensures EventWhole.Clear(Event(body, end))
  {
  }

  /** An answer at the front is found whole. */
  lemma AnswerIsFound(kind: Kind, body: Bytes, bell: bool, rest: Bytes)
    requires kind != Attributes && Body(body)
    ensures
      var t := Answer(kind, body, bell).Text();
      FindString(t + rest, Head(kind)) == Whole(Span(0, |t|))
  {
    hide Find, TerminatorFrom, Body;
    var h, end := Head(kind), if bell then [BEL] else [ESC, '\\'];
    var b := h + body + end + rest;
    FourParts(h, body, end, rest);
    HereIsFound(b, h, body + (end + rest));
    BodyIsClear(body, end);
    EventWhole.BodyEnds(body, end, rest);
  }

  lemma FourParts(h: Bytes, body: Bytes, end: Bytes, rest: Bytes)
    ensures h + body + end + rest == h + (body + (end + rest))
    ensures (h + (body + (end + rest)))[|h|..] == body + (end + rest)
  {
  }

  /** Nothing of the kind begins in a: what is cut out of a + b is cut out of b. */
  lemma CutPast(a: Bytes, b: Bytes, head: Bytes)
    requires forall k :: 0 <= k < |a| ==> !MatchAt(a + b, head, k)
    ensures
      Cut(a + b, FindString(a + b, head)) ==
      match Cut(b, FindString(b, head)) case None => None case Some(r) => Some(a + r)
  {
    hide Find, MatchAt, TerminatorFrom;
    FindPast(a, b, head, 0);
    var f := Find(b, head, 0);
    if f.Some? {
      var i := f.value;
      assert (a + b)[|a| + i + |head|..] == b[i + |head|..];
      var t := TerminatorFrom(b[i + |head|..], 0);
      if t.Some? {
        CutMoves(a, b, Span(i, i + |head| + t.value.0 + t.value.1));
      }
    }
  }

  lemma CutMoves(a: Bytes, b: Bytes, s: Span)
    requires s.from <= s.to <= |b|
    ensures CutOut(a + b, Span(|a| + s.from, |a| + s.to)) == a + CutOut(b, s)
  {
    assert (a + b)[..|a| + s.from] == a + b[..s.from] && (a + b)[|a| + s.to..] == b[s.to..];
  }

  lemma CutFront(t: Bytes, rest: Bytes)
    ensures CutOut(t + rest, Span(0, |t|)) == rest
  {
    assert (t + rest)[..0] + (t + rest)[|t|..] == rest;
  }

  lemma NoneInNothing(kind: Kind)
    ensures Find("", Head(kind), 0) == None
  {
  }

  /** The first string of a kind is cut out, and nothing else. */
  lemma {:induction false} CutsTheKind(items: seq<Item>, kind: Kind)
    requires AllValid(items) && kind != Attributes
    ensures Cut(Texts(items), FindString(Texts(items), Head(kind))) == Some(Texts(Without(items, kind)))
    decreases |items|
  {
    hide Find, FindString, Item.Valid, Item.Text, CutOut;
    if items == [] {
      NoString(kind);
    } else {
      var item, rest := items[0], Texts(items[1..]);
      assert item in items && forall i :: i in items[1..] ==> i in items;
      if item.Is(kind) {
        AnswerValid(item);
        AnswerIsFound(item.kind, item.body, item.bell, rest);
        CutFront(item.Text(), rest);
      } else {
        forall k | 0 <= k < |item.Text()| ensures !MatchAt(item.Text() + rest, Head(kind), k) {
          OtherKind(item, rest, kind, k);
        }
        CutPast(item.Text(), rest, Head(kind));
        CutsTheKind(items[1..], kind);
        FirstOf(item, Without(items[1..], kind));
      }
    }
  }

  lemma NoString(kind: Kind)
    ensures FindString("", Head(kind)) == Absent
  {
    NoneInNothing(kind);
  }

  lemma AnswerValid(item: Item)
    requires item.Valid() && item.Answer?
    ensures Body(item.body) && item.kind != Attributes
  {
  }

  lemma FirstOf(item: Item, items: seq<Item>)
    ensures Texts([item] + items) == item.Text() + Texts(items)
  {
    assert ([item] + items)[1..] == items;
  }

  // ---- the attributes ----

  function MovedSpan(s: Option<Span>, n: nat): Option<Span> {
    match s case None => None case Some(s) => Some(Span(n + s.from, n + s.to))
  }

  lemma {:induction false} SkipMoves(a: Bytes, b: Bytes, j: nat)
    requires j <= |b|
    ensures SkipAttributes(a + b, |a| + j) == |a| + SkipAttributes(b, j)
    decreases |b| - j
  {
    if j < |b| {
      assert (a + b)[|a| + j] == b[j];
      if Attribute(b[j]) { SkipMoves(a, b, j + 1); }
    }
  }

  lemma FindMoves(a: Bytes, b: Bytes, pat: Bytes, i: nat)
    requires i <= |b|
    ensures Find(a + b, pat, |a| + i) == Moved(Find(b, pat, i), |a|)
  {
    hide Find, MatchAt;
    FindMeans(b, pat, i);
    var f := Find(b, pat, i);
    var j := if f.Some? then f.value else i;
    forall k | |a| + i <= k && (f.Some? ==> k < |a| + j) ensures !MatchAt(a + b, pat, k) {
      MatchMoves(a, b, pat, k - |a|);
    }
    MatchMoves(a, b, pat, j);
    FindFrom(a + b, pat, |a| + i, |a| + j);
  }

  lemma {:induction false} DA1Moves(a: Bytes, b: Bytes, i: nat)
    requires i + 3 <= |b| && b[i..i + 3] == DA1_REPLY
    ensures (a + b)[|a| + i..|a| + i + 3] == DA1_REPLY
    ensures FindDA1(a + b, |a| + i) == MovedSpan(FindDA1(b, i), |a|)
    decreases |b| - i
  {
    hide Find, IsDA1, Attribute, FindDA1, SkipAttributes, MatchAt;
    SliceMoves(a, b, i, i + 3);
    var j := SkipAttributes(b, i + 3);
    var c, j' := a + b, |a| + j;
    AttributesMove(a, b, i + 3);
    SkippedTo(b, i, j);
    SkippedTo(c, |a| + i, j');
    if j < |b| && b[j] != 'c' {
      var f := Find(b, DA1_REPLY, j);
      FindMoves(a, b, DA1_REPLY, j);
      if f.Some? {
        DA1Moves(a, b, f.value);
      }
    }
  }

  lemma AttributesMove(a: Bytes, b: Bytes, i: nat)
    requires i <= |b|
    ensures
      var j := SkipAttributes(b, i);
      && SkipAttributes(a + b, |a| + i) == |a| + j <= |a + b|
      && SkipAttributes(b, j) == j && SkipAttributes(a + b, |a| + j) == |a| + j
      && (j < |b| ==> (a + b)[|a| + j] == b[j])
  {
    hide SkipAttributes;
    SkipMoves(a, b, i);
    SkipEnds(b, i);
    SkipEnds(a + b, |a| + i);
  }

  lemma SliceMoves(a: Bytes, b: Bytes, i: nat, j: nat)
    requires i <= j <= |b|
    ensures (a + b)[|a| + i..|a| + j] == b[i..j]
  {
  }

  lemma SkipEnds(b: Bytes, j: nat)
    requires j <= |b|
    ensures SkipAttributes(b, SkipAttributes(b, j)) == SkipAttributes(b, j)
  {
  }

  function DA1In(b: Bytes): (r: Option<Span>)
    ensures r.Some? ==> r.value.from <= r.value.to <= |b|
  {
    FromHere(b, Find(b, DA1_REPLY, 0))
  }

  lemma {:induction false} SkipsAll(b: Bytes, j: nat, to: nat)
    requires j <= to <= |b| && (forall k :: j <= k < to ==> Attribute(b[k])) && (to < |b| ==> !Attribute(b[to]))
    ensures SkipAttributes(b, j) == to
    decreases |b| - j
  {
    if j < to {
      SkipsAll(b, j + 1, to);
    }
  }

  lemma ReportParts(params: Bytes, final: char, rest: Bytes)
    requires (forall k :: 0 <= k < |params| ==> Parameter(params[k])) && !Parameter(final)
    ensures
      var b := DA1_REPLY + params + [final] + rest;
      && b[0..3] == DA1_REPLY && SkipAttributes(b, 3) == 3 + |params| < |b| && b[3 + |params|] == final
      && Find(b, DA1_REPLY, 0) == Some(0)
  {
    var b := DA1_REPLY + params + [final] + rest;
    assert forall k :: 3 <= k < 3 + |params| ==> b[k] == params[k - 3];
    assert b[3 + |params|] == final;
    SkipsAll(b, 3, 3 + |params|);
    FourParts(DA1_REPLY, params, [final], rest);
    HereIsFound(b, DA1_REPLY, params + ([final] + rest));
  }

  lemma DeviceIsFound(attrs: Bytes, rest: Bytes)
    requires forall k :: 0 <= k < |attrs| ==> Parameter(attrs[k])
    ensures
      var t := Device(attrs).Text();
      DA1In(t + rest) == Some(Span(0, |t|))
  {
    hide Find, SkipAttributes;
    ReportParts(attrs, 'c', rest);
  }

  /** Past a report the search goes on. */
  lemma ReportIsPassed(params: Bytes, final: char, rest: Bytes)
    requires Report(params, final).Valid()
    ensures
      var t := Report(params, final).Text();
      DA1In(t + rest) == MovedSpan(DA1In(rest), |t|)
  {
    hide Find, SkipAttributes, FindDA1, Attribute, MatchAt, DA1In;
    ReportParts(params, final, rest);
    NoMatchInside(params, final, rest);
    SearchGoesOn(DA1_REPLY + params + [final], rest, 3 + |params|);
  }

  lemma SearchGoesOn(t: Bytes, rest: Bytes, j: nat)
    requires var b := t + rest;
      Find(b, DA1_REPLY, 0) == Some(0) && 3 <= j <= |t| && j < |b| && SkipAttributes(b, 3) == j && b[j] != 'c'
    requires forall k :: 0 < k < |t| ==> !MatchAt(t + rest, DA1_REPLY, k)
    ensures DA1In(t + rest) == MovedSpan(DA1In(rest), |t|)
  {
    hide Find, SkipAttributes, FindDA1, MatchAt;
    OneSearch(t + rest, j);
    FindPast(t, rest, DA1_REPLY, j);
    var f := Find(rest, DA1_REPLY, 0);
    if f.Some? {
      DA1Moves(t, rest, f.value);
    }
  }

  lemma NoMatchInside(params: Bytes, final: char, rest: Bytes)
    requires Report(params, final).Valid()
    ensures
      var t := DA1_REPLY + params + [final];
      forall k :: 0 < k < |t| ==> !MatchAt(t + rest, DA1_REPLY, k)
  {
    hide MatchAt, Begins, Attribute;
    var t := DA1_REPLY + params + [final];
    forall k | 0 < k < |t| ensures !MatchAt(t + rest, DA1_REPLY, k) {
      if MatchAt(t + rest, DA1_REPLY, k) {
        MatchBegins(t + rest, Attributes, k);
        InsideReport(params, final, rest, k);
      }
    }
  }

  lemma OneSearch(b: Bytes, j: nat)
    requires 3 <= j < |b| && b[0..3] == DA1_REPLY && SkipAttributes(b, 3) == j && b[j] != 'c'
    ensures FindDA1(b, 0) == FromHere(b, Find(b, DA1_REPLY, j))
  {
    hide Find, SkipAttributes;
  }

  lemma DA1Past(a: Bytes, b: Bytes)
    requires forall k :: 0 <= k < |a| ==> !MatchAt(a + b, DA1_REPLY, k)
    ensures DA1In(a + b) == MovedSpan(DA1In(b), |a|)
  {
    hide Find, MatchAt, FindDA1;
    FindPast(a, b, DA1_REPLY, 0);
    var f := Find(b, DA1_REPLY, 0);
    if f.Some? {
      DA1Moves(a, b, f.value);
    }
  }

  /** Some item is of the kind. */
  predicate Has(items: seq<Item>, kind: Kind) {
    exists i :: 0 <= i < |items| && items[i].Is(kind)
  }

  lemma HasFirst(items: seq<Item>, kind: Kind)
    requires items != []
    ensures Has(items, kind) <==> items[0].Is(kind) || Has(items[1..], kind)
  {
    if Has(items, kind) && !items[0].Is(kind) {
      var i :| 0 <= i < |items| && items[i].Is(kind);
      assert items[1..][i - 1].Is(kind);
    }
    if Has(items[1..], kind) {
      var i :| 0 <= i < |items[1..]| && items[1..][i].Is(kind);
      assert items[i + 1].Is(kind);
    }
  }

  /** The attributes are found exactly when they are there, and cut out. */
  lemma {:induction false} CutsTheAttributes(items: seq<Item>)
    requires AllValid(items)
    ensures DA1In(Texts(items)).Some? <==> Has(items, Attributes)
    ensures DA1In(Texts(items)).Some? ==>
      CutOut(Texts(items), DA1In(Texts(items)).value) == Texts(Without(items, Attributes))
    decreases |items|
  {
    hide DA1In, Item.Valid, Item.Text, Has, CutOut;
    if items == [] {
      NoAttributes();
    } else {
      var item, rest := items[0], Texts(items[1..]);
      HasFirst(items, Attributes);
      assert item in items && forall i :: i in items[1..] ==> i in items;
      if item.Is(Attributes) {
        DeviceValid(item);
        DeviceIsFound(item.attrs, rest);
        CutFront(item.Text(), rest);
      } else {
        NotTheAttributes(item, rest);
        CutsTheAttributes(items[1..]);
        FirstOf(item, Without(items[1..], Attributes));
        if DA1In(rest).Some? {
          CutMoves(item.Text(), rest, DA1In(rest).value);
        }
      }
    }
  }

  lemma NoAttributes()
    ensures DA1In("") == None && !Has([], Attributes)
  {
    NoneInNothing(Attributes);
  }

  lemma DeviceValid(item: Item)
    requires item.Valid() && item.Is(Attributes)
    ensures item.Device? && forall k :: 0 <= k < |item.attrs| ==> Parameter(item.attrs[k])
  {
  }

  lemma NotTheAttributes(item: Item, rest: Bytes)
    requires item.Valid() && !item.Is(Attributes)
    ensures DA1In(item.Text() + rest) == MovedSpan(DA1In(rest), |item.Text()|)
  {
    hide DA1In, Item.Valid, Item.Text;
    if item.Report? {
      ReportIsPassed(item.params, item.final, rest);
    } else {
      forall k | 0 <= k < |item.Text()| ensures !MatchAt(item.Text() + rest, DA1_REPLY, k) {
        OtherKind(item, rest, Attributes, k);
      }
      DA1Past(item.Text(), rest);
    }
  }

  // ---- all of it ----

  /** The items without the first answer of each kind. */
  function Unanswered(items: seq<Item>): seq<Item> {
    Without(Without(Without(Without(items, Caps), Kitty), Version), Attributes)
  }

  lemma {:induction false} WithoutHas(items: seq<Item>, kind: Kind, other: Kind)
    requires kind != other
    ensures Has(Without(items, kind), other) <==> Has(items, other)
    decreases |items|
  {
    hide Has;
    if items != [] {
      HasFirst(items, other);
      if !items[0].Is(kind) {
        WithoutHas(items[1..], kind, other);
        var more := Without(items[1..], kind);
        HasFirst([items[0]] + more, other);
        assert ([items[0]] + more)[1..] == more;
      }
    }
  }

  /** scan is done exactly when the attributes have arrived, and then leaves everything but the first answer of each
      kind, in order, whatever order they came in and whatever was typed around them. */
  lemma ScanTakesTheAnswers(items: seq<Item>)
    requires AllValid(items)
    ensures Scan(Texts(items)) == if Has(items, Attributes) then Some(Texts(Unanswered(items))) else None
  {
    hide Texts, Without, AllValid, Has, Cut, FindString;
    var i1 := Without(items, Caps);
    var i2 := Without(i1, Kitty);
    var i3 := Without(i2, Version);
    CutsTheKind(items, Caps);
    WithoutValid(items, Caps);
    CutsTheKind(i1, Kitty);
    WithoutValid(i1, Kitty);
    CutsTheKind(i2, Version);
    WithoutValid(i2, Version);
    CutsTheAttributes(i3);
    WithoutHas(items, Caps, Attributes);
    WithoutHas(i1, Kitty, Attributes);
    WithoutHas(i2, Version, Attributes);
    ScanEnds(Texts(items), Texts(i1), Texts(i2), Texts(i3));
  }

  lemma ScanEnds(b0: Bytes, b1: Bytes, b2: Bytes, b3: Bytes)
    requires Cut(b0, FindString(b0, CAPS_REPLY)) == Some(b1) && Cut(b1, FindString(b1, KITTY_REPLY)) == Some(b2)
    requires Cut(b2, FindString(b2, XT_REPLY)) == Some(b3)
    ensures Scan(b0) == match DA1In(b3) case None => None case Some(s) => Some(CutOut(b3, s))
  {
    hide Cut, FindString, FindDA1, Find;
  }
}
