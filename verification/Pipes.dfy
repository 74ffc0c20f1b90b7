/** Pipes between programs in the page (docs/jsfs.js): a byte queue with counted references to its two ends
    and readers that wait for bytes or for the last writer to go. */
module Pipes {
  import opened Wrappers

  type Bytes = seq<bv8>

  /** A read that waits, by the number it was given and the most bytes it takes. */
  datatype Reader = Reader(ticket: nat, length: nat)

  /** What a read that asked for so many bytes was given: nothing, if it asked for some, is the end of the file. A
      read that does not wait has no ticket. */
  datatype Answer = Answer(ticket: Option<nat>, asked: nat, data: Bytes)

  datatype Pipe = Pipe(chunks: seq<Bytes>, wRefs: nat, rRefs: nat, readers: seq<Reader>, answers: seq<Answer>)

  /** One end of a pipe: which pipe, and whether it is the write end. */
  datatype End = End(pipe: nat, write: bool)

  datatype Errno = EBADF | EPIPE | EAGAIN

  function Flatten(chunks: seq<Bytes>): Bytes {
    if chunks == [] then [] else chunks[0] + Flatten(chunks[1..])
  }

  function Min(a: nat, b: nat): nat {
    if a < b then a else b
  }

  // ---- what delivering is, on the bytes alone ----

  function AnswerTo(r: Reader, data: Bytes): Answer {
    Answer(Some(r.ticket), r.length, data)
  }

  /** Waiting readers are given what there is, first come first served; with no bytes left they get the end of
      the file if no writer is left, and wait if one is. */
  function Delivered(queue: Bytes, open: bool, readers: seq<Reader>, answers: seq<Answer>): (Bytes, seq<Reader>,
        seq<Answer>)
    decreases |readers|
  {
    if readers == [] || (queue == [] && open) then (queue, readers, answers)
    else
      var n := Min(readers[0].length, |queue|);
      Delivered(queue[n..], open, readers[1..], answers + [AnswerTo(readers[0], queue[..n])])
  }

  function Contents(p: Pipe): (Bytes, seq<Reader>, seq<Answer>) {
    (Flatten(p.chunks), p.readers, p.answers)
  }

  /** All the bytes that reads were given. */
  function Given(answers: seq<Answer>): Bytes {
    if answers == [] then [] else answers[0].data + Given(answers[1..])
  }

  function Tickets(answers: seq<Answer>): seq<nat> {
    if answers == [] then []
    else Ticket(answers[0]) + Tickets(answers[1..])
  }

  function Waiting(readers: seq<Reader>): seq<nat> {
    if readers == [] then [] else [readers[0].ticket] + Waiting(readers[1..])
  }

  // ---- the loops ----

  lemma {:induction false} FlattenAppend(a: seq<Bytes>, b: seq<Bytes>)
    ensures Flatten(a + b) == Flatten(a) + Flatten(b)
    decreases |a|
  {
    if a == [] {
      assert a + b == b && [] + Flatten(b) == Flatten(b);
    } else {
      assert (a + b)[0] == a[0] && (a + b)[1..] == a[1..] + b;
      FlattenAppend(a[1..], b);
      Assoc(a[0], Flatten(a[1..]), Flatten(b));
    }
  }

  lemma TakeHead(got: Bytes, c: Bytes, rest: Bytes, k: nat)
    requires k <= |c|
    ensures got + (c + rest) == (got + c[..k]) + (c[k..] + rest)
  {
    assert c == c[..k] + c[k..];
  }

  /** The first bytes of the chunks, up to length of them; the last chunk touched may be split. */
  method TakeBytes(chunks: seq<Bytes>, length: nat) returns (data: Bytes, rest: seq<Bytes>)
    ensures data + Flatten(rest) == Flatten(chunks)
    ensures |data| == Min(length, |Flatten(chunks)|)
  {
    data, rest := [], chunks;
    assert [] + Flatten(rest) == Flatten(rest);
    while |data| < length && rest != []
      invariant data + Flatten(rest) == Flatten(chunks) && |data| <= length
      decreases length - |data|, |rest|
    {
      var c := rest[0];
      var take := Min(length - |data|, |c|);
      TakeHead(data, c, Flatten(rest[1..]), take);
      if take == |c| {
        assert c[take..] + Flatten(rest[1..]) == Flatten(rest[1..]);
        data, rest := data + c[..take], rest[1..];
      } else {
        FlattenFirst(c[take..], rest[1..]);
        data, rest := data + c[..take], [c[take..]] + rest[1..];
      }
    }
    if rest == [] {
      assert data + [] == data;
    }
  }

  lemma FlattenFirst(c: Bytes, rest: seq<Bytes>)
    ensures Flatten([c] + rest) == c + Flatten(rest)
  {
    assert ([c] + rest)[1..] == rest;
  }

  /** pipeDeliver. */
  method Deliver(p: Pipe) returns (q: Pipe)
    ensures q.wRefs == p.wRefs && q.rRefs == p.rRefs
    ensures Contents(q) == Delivered(Flatten(p.chunks), p.wRefs > 0, p.readers, p.answers)
  {
    q := p;
    while |q.readers| > 0
      invariant q.wRefs == p.wRefs && q.rRefs == p.rRefs
      invariant Delivered(Flatten(q.chunks), q.wRefs > 0, q.readers, q.answers) ==
        Delivered(Flatten(p.chunks), p.wRefs > 0, p.readers, p.answers)
      decreases |q.readers|
    {
      var total := Total(q.chunks);
      if total == 0 {
        if q.wRefs > 0 {
          break;
        }
        assert Flatten(q.chunks)[..0] == [] && Flatten(q.chunks)[0..] == Flatten(q.chunks);
        q := q.(readers := q.readers[1..], answers := q.answers + [AnswerTo(q.readers[0], [])]);
        continue;
      }
      var w := q.readers[0];
      var data, rest := TakeBytes(q.chunks, w.length);
      assert Flatten(q.chunks)[..|data|] == data && Flatten(q.chunks)[|data|..] == Flatten(rest);
      q := q.(readers := q.readers[1..], chunks := rest, answers := q.answers + [AnswerTo(w, data)]);
    }
  }

  /** The number of bytes queued. */
  method Total(chunks: seq<Bytes>) returns (n: nat)
    ensures n == |Flatten(chunks)|
  {
    n := 0;
    for i := 0 to |chunks|
      invariant n + |Flatten(chunks[i..])| == |Flatten(chunks)|
    {
      assert chunks[i..][0] == chunks[i] && chunks[i..][1..] == chunks[i + 1..];
      n := n + |chunks[i]|;
    }
  }

  // ---- what every pipe keeps ----

  ghost predicate EofGiven(answers: seq<Answer>) {
    exists i :: 0 <= i < |answers| && answers[i].data == [] && answers[i].asked > 0
  }

  /** Bytes given and bytes queued are the bytes written, in order; readers wait only while nothing is queued
      and a writer is left; the end of the file was given only after the last writer went and everything was
      read; and reads are answered in the order they came. */
  ghost predicate Kept(p: Pipe, written: Bytes, issued: seq<nat>) {
    && Given(p.answers) + Flatten(p.chunks) == written
    && (p.readers != [] ==> Flatten(p.chunks) == [] && p.wRefs > 0)
    && (EofGiven(p.answers) ==> Flatten(p.chunks) == [] && p.wRefs == 0)
    && Tickets(p.answers) + Waiting(p.readers) == issued
  }

  lemma {:induction false} GivenSnoc(answers: seq<Answer>, a: Answer)
    ensures Given(answers + [a]) == Given(answers) + a.data
    decreases |answers|
  {
    var all := answers + [a];
    if answers == [] {
      assert all[0] == a && all[1..] == [];
      assert a.data + [] == a.data && [] + a.data == a.data;
    } else {
      assert all[0] == answers[0] && all[1..] == answers[1..] + [a];
      GivenSnoc(answers[1..], a);
      Assoc(answers[0].data, Given(answers[1..]), a.data);
    }
  }

  function Ticket(a: Answer): seq<nat> {
    if a.ticket.Some? then [a.ticket.value] else []
  }

  lemma {:induction false} TicketsSnoc(answers: seq<Answer>, a: Answer)
    ensures Tickets(answers + [a]) == Tickets(answers) + Ticket(a)
    decreases |answers|
  {
    var all := answers + [a];
    if answers == [] {
      assert all[0] == a && all[1..] == [];
    } else {
      assert all[0] == answers[0] && all[1..] == answers[1..] + [a];
      TicketsSnoc(answers[1..], a);
      Assoc(Ticket(answers[0]), Tickets(answers[1..]), Ticket(a));
    }
  }

  /** Delivering keeps bytes and order, and leaves readers waiting only for want of bytes. */
  lemma {:induction false} DeliveredKeeps(queue: Bytes, open: bool, readers: seq<Reader>, answers: seq<Answer>)
    requires EofGiven(answers) ==> queue == [] && !open
    ensures var (q, r, a) := Delivered(queue, open, readers, answers);
      && Given(a) + q == Given(answers) + queue
      && (r != [] ==> q == [] && open)
      && (EofGiven(a) ==> q == [] && !open)
      && Tickets(a) + Waiting(r) == Tickets(answers) + Waiting(readers)
    decreases |readers|
  {
    if readers != [] && !(queue == [] && open) {
      var n := Min(readers[0].length, |queue|);
      var a := AnswerTo(readers[0], queue[..n]);
      GivenSnoc(answers, a);
      TicketsSnoc(answers, a);
      assert queue == queue[..n] + queue[n..];
      Assoc(Given(answers), queue[..n], queue[n..]);
      Assoc(Tickets(answers), [readers[0].ticket], Waiting(readers[1..]));
      assert forall i :: 0 <= i < |answers| ==> (answers + [a])[i] == answers[i];
      DeliveredKeeps(queue[n..], open, readers[1..], answers + [a]);
    }
  }

  /** The reader is given the bytes from..to: as many as it asked for, or all that are left. It is served while bytes
      are left, and with none left when no writer is. */
  predicate Served(queue: Bytes, open: bool, r: Reader, from: nat, to: nat, a: Answer) {
    && from <= to <= |queue| && (from < |queue| || !open)
    && to == (if r.length < |queue| - from then from + r.length else |queue|)
    && a.ticket == Some(r.ticket) && a.asked == r.length && a.data == queue[from..to]
  }

  /** The first readers are served in turn: at[j] is where the bytes of reader j begin, and those of the next where they
      end. */
  predicate InTurn(queue: Bytes, open: bool, readers: seq<Reader>, given: seq<Answer>, at: seq<nat>) {
    && |at| == |given| + 1 && |given| <= |readers| && at[0] == 0 && at[|given|] <= |queue|
    && forall j :: 0 <= j < |given| ==> Served(queue, open, readers[j], at[j], at[j + 1], given[j])
  }

  lemma ServedLater(queue: Bytes, open: bool, r: Reader, n: nat, from: nat, to: nat, a: Answer)
    requires n <= |queue| && Served(queue[n..], open, r, from, to, a)
    ensures Served(queue, open, r, n + from, n + to, a)
  {
    assert queue[n..][from..to] == queue[n + from..n + to];
  }

  function From(at: seq<nat>, n: nat): (r: seq<nat>)
    ensures |r| == |at| + 1 && r[0] == 0 && forall j :: 0 <= j < |at| ==> r[j + 1] == n + at[j]
  {
    [0] + seq(|at|, j requires 0 <= j < |at| => n + at[j])
  }

  lemma TurnMore(queue: Bytes, open: bool, readers: seq<Reader>, n: nat, one: Answer, given: seq<Answer>, at: seq<nat>)
    requires readers != [] && n <= |queue| && Served(queue, open, readers[0], 0, n, one)
    requires InTurn(queue[n..], open, readers[1..], given, at)
    ensures InTurn(queue, open, readers, [one] + given, From(at, n))
  {
    hide Served, From;
    var all, at' := [one] + given, From(at, n);
    forall j | 0 <= j < |all| ensures Served(queue, open, readers[j], at'[j], at'[j + 1], all[j]) {
      if j > 0 {
        ServedLater(queue, open, readers[1..][j - 1], n, at[j - 1], at[j], given[j - 1]);
      }
    }
  }

  /** Readers are served first come first served, and those that are left have nothing to read, with a writer left. */
  lemma {:induction false} FirstComeFirstServed(queue: Bytes, open: bool, readers: seq<Reader>, answers: seq<Answer>)
    returns (given: seq<Answer>, at: seq<nat>)
    ensures
      var (q, r, a) := Delivered(queue, open, readers, answers);
      && InTurn(queue, open, readers, given, at) && a == answers + given
      && q == queue[at[|given|]..] && r == readers[|given|..] && (r != [] ==> q == [] && open)
    decreases |readers|
  {
    hide InTurn, Served, From;
    if readers == [] || (queue == [] && open) {
      given, at := [], [0];
      NobodyServed(queue, open, readers);
      assert answers + [] == answers;
    } else {
      var n := Min(readers[0].length, |queue|);
      var one := AnswerTo(readers[0], queue[..n]);
      var given', at' := FirstComeFirstServed(queue[n..], open, readers[1..], answers + [one]);
      FirstServed(queue, open, readers[0], n, one);
      TurnMore(queue, open, readers, n, one, given', at');
      LastFrom(queue, readers, n, given', at', open);
      Assoc(answers, [one], given');
      given, at := [one] + given', From(at', n);
    }
  }

  lemma NobodyServed(queue: Bytes, open: bool, readers: seq<Reader>)
    ensures InTurn(queue, open, readers, [], [0]) && queue[0..] == queue && readers[0..] == readers
  {
  }

  lemma FirstServed(queue: Bytes, open: bool, r: Reader, n: nat, one: Answer)
    requires !(queue == [] && open) && n == Min(r.length, |queue|) && one == AnswerTo(r, queue[..n])
    ensures Served(queue, open, r, 0, n, one)
  {
    assert queue[0..n] == queue[..n];
  }

  lemma LastFrom(queue: Bytes, readers: seq<Reader>, n: nat, given: seq<Answer>, at: seq<nat>, open: bool)
    requires readers != [] && n <= |queue| && InTurn(queue[n..], open, readers[1..], given, at)
    ensures
      var k := |given| + 1;
      && |From(at, n)| > k && k <= |readers| && From(at, n)[k] == n + at[k - 1] <= |queue|
      && queue[n..][at[k - 1]..] == queue[n + at[k - 1]..] && readers[1..][k - 1..] == readers[k..]
  {
  }

  // ---- each operation on one pipe ----

  lemma RetainKeeps(p: Pipe, written: Bytes, issued: seq<nat>)
    requires Kept(p, written, issued)
    ensures p.wRefs > 0 ==> Kept(p.(wRefs := p.wRefs + 1), written, issued)
    ensures Kept(p.(rRefs := p.rRefs + 1), written, issued)
  {
  }

  lemma {:induction false} WaitingSnoc(readers: seq<Reader>, r: Reader)
    ensures Waiting(readers + [r]) == Waiting(readers) + [r.ticket]
    decreases |readers|
  {
    var all := readers + [r];
    if readers == [] {
      assert all[0] == r && all[1..] == [];
    } else {
      assert all[0] == readers[0] && all[1..] == readers[1..] + [r];
      WaitingSnoc(readers[1..], r);
    }
  }

  lemma ReadKeeps(p: Pipe, q: Pipe, written: Bytes, issued: seq<nat>, r: Reader)
    requires Kept(p, written, issued) && q.wRefs == p.wRefs
    requires Contents(q) == Delivered(Flatten(p.chunks), p.wRefs > 0, p.readers + [r], p.answers)
    ensures Kept(q, written, issued + [r.ticket])
  {
    WaitingSnoc(p.readers, r);
    Assoc(Tickets(p.answers), Waiting(p.readers), [r.ticket]);
    DeliveredKeeps(Flatten(p.chunks), p.wRefs > 0, p.readers + [r], p.answers);
  }

  lemma WriteKeeps(p: Pipe, q: Pipe, written: Bytes, issued: seq<nat>, bytes: Bytes)
    requires Kept(p, written, issued) && p.wRefs > 0 && q.wRefs == p.wRefs
    requires Contents(q) == Delivered(Flatten(p.chunks + [bytes]), p.wRefs > 0, p.readers, p.answers)
    ensures Kept(q, written + bytes, issued)
  {
    FlattenAppend(p.chunks, [bytes]);
    assert Flatten([bytes]) == bytes + [] == bytes;
    Assoc(Given(p.answers), Flatten(p.chunks), bytes);
    DeliveredKeeps(Flatten(p.chunks + [bytes]), p.wRefs > 0, p.readers, p.answers);
  }

  lemma CloseKeeps(p: Pipe, d: Pipe, q: Pipe, written: Bytes, issued: seq<nat>)
    requires Kept(p, written, issued) && d == p.(wRefs := d.wRefs, rRefs := d.rRefs) && d.wRefs <= p.wRefs
      && q.wRefs == d.wRefs
    requires Contents(q) == Delivered(Flatten(p.chunks), d.wRefs > 0, p.readers, p.answers)
    ensures Kept(q, written, issued)
  {
    DeliveredKeeps(Flatten(p.chunks), d.wRefs > 0, p.readers, p.answers);
  }

  lemma NowKeeps(p: Pipe, asked: nat, data: Bytes, rest: seq<Bytes>, written: Bytes, issued: seq<nat>)
    requires Kept(p, written, issued) && p.readers == [] && data + Flatten(rest) == Flatten(p.chunks)
    requires data == [] && asked > 0 ==> Flatten(p.chunks) == [] && p.wRefs == 0
    ensures Kept(p.(chunks := rest, answers := p.answers + [Answer(None, asked, data)]), written, issued)
    ensures Given(p.answers + [Answer(None, asked, data)]) == Given(p.answers) + data
  {
    var a := Answer(None, asked, data);
    GivenSnoc(p.answers, a);
    TicketsSnoc(p.answers, a);
    Assoc(Given(p.answers), data, Flatten(rest));
    assert Tickets(p.answers) + [] == Tickets(p.answers);
    assert forall i :: 0 <= i < |p.answers| ==> (p.answers + [a])[i] == p.answers[i];
    assert (p.answers + [a])[|p.answers|] == a;
  }

  /** Nothing means the end of the file, but for a read of no bytes at all, which is answered with nothing
      while bytes are queued. */
  lemma NothingMeansTheEnd(queue: Bytes, open: bool, r: Reader)
    ensures var (q, waiting, answers) := Delivered(queue, open, [r], []);
      answers == [AnswerTo(r, [])] && !(queue == [] && !open) <==> r.length == 0 && queue != []
  {
    var n := Min(r.length, |queue|);
    assert [r][1..] == [];
    if !(queue == [] && open) {
      var a := AnswerTo(r, queue[..n]);
      assert Delivered(queue, open, [r], []).2 == [] + [a] == [a];
      assert [a] == [AnswerTo(r, [])] <==> [a][0] == [AnswerTo(r, [])][0];
    }
  }

  // ---- the table of descriptors ----

  /** A descriptor is in the table exactly while its end has a reference. fds are the descriptors each pipe was
      made with, of its read end and its write end. */
  ghost predicate Table(ends: map<nat, End>, nextFd: nat, pipes: seq<Pipe>, fds: seq<(nat, nat)>) {
    && |fds| == |pipes|
    && (forall i :: 0 <= i < |pipes| ==> fds[i].0 < nextFd && fds[i].1 < nextFd && fds[i].0 != fds[i].1)
    && (forall i :: 0 <= i < |pipes| ==> (fds[i].0 in ends <==> pipes[i].rRefs > 0))
    && (forall i :: 0 <= i < |pipes| ==> (fds[i].1 in ends <==> pipes[i].wRefs > 0))
    && (forall fd :: fd in ends ==> ends[fd].pipe < |pipes|)
    && (forall fd :: fd in ends ==> fd == if ends[fd].write then fds[ends[fd].pipe].1 else fds[ends[fd].pipe].0)
    && (forall i, j :: 0 <= i < j < |pipes| ==>
        fds[i].0 != fds[j].0 && fds[i].0 != fds[j].1 && fds[i].1 != fds[j].0 && fds[i].1 != fds[j].1)
  }

  ghost predicate AllKept(pipes: seq<Pipe>, written: seq<Bytes>, issued: seq<seq<nat>>) {
    |written| == |issued| == |pipes| && forall i :: 0 <= i < |pipes| ==> Kept(pipes[i], written[i], issued[i])
  }

  function Refs(p: Pipe, write: bool): nat {
    if write then p.wRefs else p.rRefs
  }

  predicate SameRefs(p: Pipe, q: Pipe) {
    p.wRefs == q.wRefs && p.rRefs == q.rRefs
  }

  lemma TableMake(ends: map<nat, End>, nextFd: nat, pipes: seq<Pipe>, fds: seq<(nat, nat)>, p: Pipe)
    requires Table(ends, nextFd, pipes, fds) && p.wRefs == p.rRefs == 1
    ensures nextFd !in ends && nextFd + 1 !in ends
    ensures Table(ends[nextFd := End(|pipes|, false)][nextFd + 1 := End(|pipes|, true)], nextFd + 2, pipes + [p],
                  fds + [(nextFd, nextFd + 1)])
  {
  }

  lemma TableEntry(ends: map<nat, End>, nextFd: nat, pipes: seq<Pipe>, fds: seq<(nat, nat)>, fd: nat)
    requires Table(ends, nextFd, pipes, fds) && fd in ends
    ensures ends[fd].pipe < |pipes| && Refs(pipes[ends[fd].pipe], ends[fd].write) > 0
  {
  }

  lemma TableSame(ends: map<nat, End>, nextFd: nat, pipes: seq<Pipe>, fds: seq<(nat, nat)>, i: nat, q: Pipe)
    requires Table(ends, nextFd, pipes, fds) && i < |pipes|
    requires q.wRefs > 0 <==> pipes[i].wRefs > 0
    requires q.rRefs > 0 <==> pipes[i].rRefs > 0
    ensures Table(ends, nextFd, pipes[i := q], fds)
  {
  }

  lemma TableDrop(ends: map<nat, End>, nextFd: nat, pipes: seq<Pipe>, fds: seq<(nat, nat)>, fd: nat, q: Pipe)
    requires Table(ends, nextFd, pipes, fds) && fd in ends && ends[fd].pipe < |pipes|
    requires var e := ends[fd];
      Refs(q, e.write) == 0 && Refs(q, !e.write) == Refs(pipes[e.pipe], !e.write)
    ensures Table(ends - {fd}, nextFd, pipes[ends[fd].pipe := q], fds)
  {
    var e := ends[fd];
    assert fds[e.pipe].0 != fds[e.pipe].1;
  }

  lemma KeptAt(pipes: seq<Pipe>, written: seq<Bytes>, issued: seq<seq<nat>>, i: nat)
    requires AllKept(pipes, written, issued) && i < |pipes|
    ensures |written| == |issued| == |pipes| && Kept(pipes[i], written[i], issued[i])
  {
  }

  lemma KeptSizes(pipes: seq<Pipe>, written: seq<Bytes>, issued: seq<seq<nat>>)
    requires AllKept(pipes, written, issued)
    ensures |written| == |issued| == |pipes|
  {
  }

  lemma KeptPut(pipes: seq<Pipe>, written: seq<Bytes>, issued: seq<seq<nat>>, i: nat, q: Pipe, bytes: Bytes,
        asked: seq<nat>)
    requires AllKept(pipes, written, issued) && i < |pipes| && Kept(q, bytes, asked)
    ensures |written| == |issued| == |pipes|
    ensures AllKept(pipes[i := q], written[i := bytes], issued[i := asked])
  {
    hide Kept;
  }

  lemma KeptMake(pipes: seq<Pipe>, written: seq<Bytes>, issued: seq<seq<nat>>)
    requires AllKept(pipes, written, issued)
    ensures AllKept(pipes + [Pipe([], 1, 1, [], [])], written + [[]], issued + [[]])
  {
    var p := Pipe([], 1, 1, [], []);
    assert Kept(p, [], []);
  }

  class Pipes {
    var pipeEnds: map<nat, End>
    var nextFd: nat
    /** The pipes, by when they were made. */
    var pipes: seq<Pipe>
    var tickets: nat

    ghost var written: seq<Bytes>
    ghost var issued: seq<seq<nat>>
    ghost var fds: seq<(nat, nat)>

    ghost predicate Valid()
      reads this
    {
      Table(pipeEnds, nextFd, pipes, fds) && AllKept(pipes, written, issued)
    }

    constructor ()
      ensures Valid() && pipes == [] && pipeEnds == map[] && written == [] && issued == []
    {
      pipeEnds, nextFd, pipes, tickets := map[], 3, [], 0;
      written, issued, fds := [], [], [];
    }

    method MakePipe() returns (r: nat, w: nat)
      requires Valid()
      modifies this
      ensures Valid() && r != w
      ensures pipes == old(pipes) + [Pipe([], 1, 1, [], [])] && written == old(written) + [[]]
        && issued == old(issued) + [[]]
      ensures r !in old(pipeEnds) && w !in old(pipeEnds)
      ensures pipeEnds == old(pipeEnds)[r := End(|old(pipes)|, false)][w := End(|old(pipes)|, true)]
    {
      hide Table, AllKept;
      var p := Pipe([], 1, 1, [], []);
      TableMake(pipeEnds, nextFd, pipes, fds, p);
      KeptMake(pipes, written, issued);
      r, w := nextFd, nextFd + 1;
      nextFd := nextFd + 2;
      pipeEnds := pipeEnds[r := End(|pipes|, false)][w := End(|pipes|, true)];
      pipes := pipes + [p];
      written, issued, fds := written + [[]], issued + [[]], fds + [(r, w)];
    }

    /** Pipe i becomes q, whose references are as before. */
    method Put(i: nat, q: Pipe, ghost bytes: Bytes, ghost asked: seq<nat>)
      requires Valid() && i < |pipes| && Kept(q, bytes, asked)
      requires q.wRefs == pipes[i].wRefs && q.rRefs == pipes[i].rRefs
      modifies this`pipes, this`written, this`issued
      ensures Valid() && pipes == old(pipes)[i := q]
      ensures |old(written)| == |old(issued)| == |old(pipes)|
      ensures written == old(written)[i := bytes] && issued == old(issued)[i := asked]
    {
      hide Table, AllKept, Kept;
      TableSame(pipeEnds, nextFd, pipes, fds, i, q);
      KeptPut(pipes, written, issued, i, q, bytes, asked);
      pipes, written, issued := pipes[i := q], written[i := bytes], issued[i := asked];
    }

    /** pipeRetain: another reference to fd's end; nothing for a descriptor that is not a pipe's. */
    method Retain(fd: nat) returns (same: nat)
      requires Valid()
      modifies this`pipes, this`written, this`issued
      ensures Valid() && same == fd && written == old(written) && issued == old(issued)
      ensures fd !in pipeEnds ==> pipes == old(pipes)
      ensures fd in pipeEnds ==> pipeEnds[fd].pipe < |old(pipes)|
      ensures fd in pipeEnds ==>
        var e := pipeEnds[fd];
        var p := old(pipes)[e.pipe];
        pipes ==
          old(pipes)[e.pipe := if e.write then p.(wRefs := p.wRefs + 1) else p.(rRefs := p.rRefs + 1)]
    {
      hide Table, AllKept, Kept;
      same := fd;
      if fd in pipeEnds {
        var e := pipeEnds[fd];
        TableEntry(pipeEnds, nextFd, pipes, fds, fd);
        KeptAt(pipes, written, issued, e.pipe);
        var p := pipes[e.pipe];
        var q := if e.write then p.(wRefs := p.wRefs + 1) else p.(rRefs := p.rRefs + 1);
        RetainKeeps(p, written[e.pipe], issued[e.pipe]);
        TableSame(pipeEnds, nextFd, pipes, fds, e.pipe, q);
        KeptPut(pipes, written, issued, e.pipe, q, written[e.pipe], issued[e.pipe]);
        pipes := pipes[e.pipe := q];
        assert written[e.pipe := written[e.pipe]] == written && issued[e.pipe := issued[e.pipe]] == issued;
      }
    }

    /** pipeReadInto: the read waits its turn and is answered with what there is. */
    method ReadInto(fd: nat, length: nat) returns (r: Result<nat, Errno>)
      requires Valid()
      modifies this`pipes, this`written, this`issued, this`tickets
      ensures Valid() && written == old(written)
      ensures r.Ok? <==> fd in pipeEnds && !pipeEnds[fd].write
      ensures r.Err? ==> r.error == EBADF && pipes == old(pipes) && issued == old(issued)
      ensures r.Ok? ==> pipeEnds[fd].pipe < |old(issued)| && r.value == old(tickets)
      ensures r.Ok? ==>
        var i := pipeEnds[fd].pipe;
        issued == old(issued)[i := old(issued)[i] + [r.value]]
      ensures r.Ok? ==> pipeEnds[fd].pipe < |old(pipes)| == |pipes|
      ensures r.Ok? ==>
        var i := pipeEnds[fd].pipe;
        var p := old(pipes)[i];
        && pipes == old(pipes)[i := pipes[i]] && SameRefs(p, pipes[i])
        && Contents(pipes[i]) ==
          Delivered(Flatten(p.chunks), p.wRefs > 0, p.readers + [Reader(r.value, length)], p.answers)
    {
      hide Table, AllKept, Kept;
      if fd !in pipeEnds || pipeEnds[fd].write {
        return Err(EBADF);
      }
      var i := pipeEnds[fd].pipe;
      TableEntry(pipeEnds, nextFd, pipes, fds, fd);
      KeptAt(pipes, written, issued, i);
      var p := pipes[i];
      var ticket := tickets;
      tickets := tickets + 1;
      var q := Deliver(p.(readers := p.readers + [Reader(ticket, length)]));
      ReadKeeps(p, q, written[i], issued[i], Reader(ticket, length));
      Put(i, q, written[i], issued[i] + [ticket]);
      assert old(written)[i := old(written)[i]] == old(written);
      return Ok(ticket);
    }

    /** pipeWriteFrom: the bytes are queued and delivered to whoever waits. */
    method WriteFrom(fd: nat, bytes: Bytes) returns (r: Result<nat, Errno>)
      requires Valid()
      modifies this`pipes, this`written, this`issued
      ensures Valid() && issued == old(issued)
      ensures fd in pipeEnds ==> pipeEnds[fd].pipe < |old(pipes)| == |old(written)|
      ensures r.Ok? <==> fd in pipeEnds && pipeEnds[fd].write && old(pipes)[pipeEnds[fd].pipe].rRefs > 0
      ensures r.Err? ==> pipes == old(pipes) && written == old(written)
      ensures r.Err? ==> r.error == if fd in pipeEnds && pipeEnds[fd].write then EPIPE else EBADF
      ensures r.Ok? ==> r.value == |bytes|
      ensures r.Ok? ==>
        var i := pipeEnds[fd].pipe;
        written == old(written)[i := old(written)[i] + bytes]
      ensures r.Ok? ==> |pipes| == |old(pipes)|
      ensures r.Ok? ==>
        var i := pipeEnds[fd].pipe;
        var p := old(pipes)[i];
        && pipes == old(pipes)[i := pipes[i]] && SameRefs(p, pipes[i])
        && Contents(pipes[i]) == Delivered(Flatten(p.chunks + [bytes]), p.wRefs > 0, p.readers, p.answers)
    {
      hide Table, AllKept, Kept;
      if fd in pipeEnds {
        TableEntry(pipeEnds, nextFd, pipes, fds, fd);
        KeptAt(pipes, written, issued, pipeEnds[fd].pipe);
      }
      if fd !in pipeEnds || !pipeEnds[fd].write {
        return Err(EBADF);
      }
      var i := pipeEnds[fd].pipe;
      var p := pipes[i];
      if p.rRefs == 0 {
        return Err(EPIPE);
      }
      var q := Deliver(p.(chunks := p.chunks + [bytes]));
      WriteKeeps(p, q, written[i], issued[i], bytes);
      Put(i, q, written[i] + bytes, issued[i]);
      assert old(issued)[i := old(issued)[i]] == old(issued);
      return Ok(|bytes|);
    }

    /** pipeClose: a reference goes, with the last of an end its descriptor, and with the last writer the
        readers' wait. */
    method Close(fd: nat) returns (known: bool)
      requires Valid()
      modifies this`pipes, this`pipeEnds
      ensures Valid() && known == (fd in old(pipeEnds))
      ensures !known ==> pipes == old(pipes) && pipeEnds == old(pipeEnds)
      ensures known ==> old(pipeEnds)[fd].pipe < |old(pipes)| == |pipes|
      ensures known ==>
        var e := old(pipeEnds)[fd];
        var p, q := old(pipes)[e.pipe], pipes[e.pipe];
        && Refs(q, e.write) == Refs(p, e.write) - 1 && Refs(q, !e.write) == Refs(p, !e.write)
        && pipes == old(pipes)[e.pipe := q]
        && Contents(q) == Delivered(Flatten(p.chunks), q.wRefs > 0, p.readers, p.answers)
        && pipeEnds == if Refs(p, e.write) == 1 then old(pipeEnds) - {fd} else old(pipeEnds)
    {
      hide Table, AllKept, Kept;
      if fd !in pipeEnds {
        return false;
      }
      var e := pipeEnds[fd];
      TableEntry(pipeEnds, nextFd, pipes, fds, fd);
      KeptAt(pipes, written, issued, e.pipe);
      var p := pipes[e.pipe];
      var d := if e.write then p.(wRefs := p.wRefs - 1) else p.(rRefs := p.rRefs - 1);
      var q := Deliver(d);
      CloseKeeps(p, d, q, written[e.pipe], issued[e.pipe]);
      KeptPut(pipes, written, issued, e.pipe, q, written[e.pipe], issued[e.pipe]);
      assert written[e.pipe := written[e.pipe]] == written && issued[e.pipe := issued[e.pipe]] == issued;
      if (if e.write then d.wRefs else d.rRefs) == 0 {
        TableDrop(pipeEnds, nextFd, pipes, fds, fd, q);
        pipeEnds := pipeEnds - {fd};
      } else {
        TableSame(pipeEnds, nextFd, pipes, fds, e.pipe, q);
      }
      pipes := pipes[e.pipe := q];
      return true;
    }

    /** pipeReadNow: what is queued, never ahead of the readers that wait, and refused while there is nothing to
        give but a writer is left. */
    method ReadNow(fd: nat, length: nat) returns (r: Result<Bytes, Errno>)
      requires Valid()
      modifies this`pipes, this`written, this`issued
      ensures Valid() && written == old(written) && issued == old(issued)
      ensures |pipes| == |old(pipes)| == |written| && (r.Err? ==> pipes == old(pipes))
      ensures !(fd in pipeEnds && !pipeEnds[fd].write) ==> r == Err(EBADF)
      ensures fd in pipeEnds && !pipeEnds[fd].write ==> pipeEnds[fd].pipe < |pipes|
      ensures fd in pipeEnds && !pipeEnds[fd].write ==>
        var i := pipeEnds[fd].pipe;
        var p, q := old(pipes)[i], pipes[i];
        if p.readers != [] || (Flatten(p.chunks) == [] && p.wRefs > 0) then r == Err(EAGAIN)
        else
          && r.Ok? && |r.value| == Min(length, |Flatten(p.chunks)|)
          && r.value + Flatten(q.chunks) == Flatten(p.chunks)
          && q == p.(chunks := q.chunks, answers := p.answers + [Answer(None, length, r.value)])
          && (Flatten(p.chunks) == [] ==> Given(p.answers) == written[i])
    {
      hide Table, AllKept;
      KeptSizes(pipes, written, issued);
      if fd !in pipeEnds || pipeEnds[fd].write {
        return Err(EBADF);
      }
      var i := pipeEnds[fd].pipe;
      TableEntry(pipeEnds, nextFd, pipes, fds, fd);
      KeptAt(pipes, written, issued, i);
      assert old(written)[i := old(written)[i]] == old(written) && old(issued)[i := old(issued)[i]] == old(issued);
      var p := pipes[i];
      var total := Total(p.chunks);
      if |p.readers| > 0 || total == 0 {
        if |p.readers| == 0 && p.wRefs == 0 {
          NowKeeps(p, length, [], p.chunks, written[i], issued[i]);
          assert [] + Flatten(p.chunks) == Flatten(p.chunks) && Given(p.answers) + [] == Given(p.answers);
          Put(i, p.(answers := p.answers + [Answer(None, length, [])]), written[i], issued[i]);
          return Ok([]);
        }
        return Err(EAGAIN);
      }
      var data, rest := TakeBytes(p.chunks, length);
      NowKeeps(p, length, data, rest, written[i], issued[i]);
      Put(i, p.(chunks := rest, answers := p.answers + [Answer(None, length, data)]), written[i], issued[i]);
      return Ok(data);
    }
  }
}
