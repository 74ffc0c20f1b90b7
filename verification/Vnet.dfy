/** The page's loopback network (docs/vnet.js): ports that programs listen on, two-ended connections with a
    queue of bytes each way, and wakeups that fire once. */
module Vnet {
  import opened Wrappers

  type Bytes = seq<bv8>

  /** The dialer is side A and the accepter side B. */
  datatype Side = A | B

  /** What one side of a connection owns: the chunks it can read, its wakeup, whether it has closed, and the
      program it belongs to. */
  datatype End = End(queue: seq<Bytes>, wake: Option<nat>, closed: bool, owner: string)

  datatype Conn = Conn(a: End, b: End)

  datatype Listener = Listener(onConn: nat, owner: string)

  /** A microtask: a listener told of a connection, or a wakeup that fired. */
  datatype Task = Accept(onConn: nat, id: int) | Ready(callback: nat)

  /** All of the network's state. Microtasks are kept in the order they were queued. */
  datatype Net = Net(nextId: int, ports: map<int, Listener>, conns: map<int, Conn>, tasks: seq<Task>)

  datatype Op =
    | Listen(port: int, onConn: nat, owner: string)
    | Unlisten(port: int)
    | Dial(port: int, owner: string)
    | Release(owner: string)
    | Send(id: int, side: Side, bytes: Bytes)
    | Recv(id: int, side: Side)
    | OnReadable(id: int, side: Side, callback: nat)
    | Close(id: int, side: Side)

  const EMPTY := Net(1, map[], map[], [])

  function Peer(s: Side): Side {
    if s == A then B else A
  }

  function At(c: Conn, s: Side): End {
    if s == A then c.a else c.b
  }

  function With(c: Conn, s: Side, e: End): Conn {
    if s == A then c.(a := e) else c.(b := e)
  }

  // ---- the operations on the state ----

  /** wake: the side's wakeup, if it has one, is queued and forgotten. */
  function Woken(e: End): End {
    e.(wake := None)
  }

  function Fired(e: End): seq<Task> {
    if e.wake.Some? then [Ready(e.wake.value)] else []
  }

  function Dialled(n: Net, port: int, owner: string): Net {
    if port !in n.ports then n
    else
      var l := n.ports[port];
      var c := Conn(End([], None, false, owner), End([], None, false, l.owner));
      Net(n.nextId + 1, n.ports, n.conns[n.nextId := c], n.tasks + [Accept(l.onConn, n.nextId)])
  }

  /** A send is taken when the connection is there and its other end has not closed. */
  predicate Takes(n: Net, id: int, s: Side) {
    id in n.conns && !At(n.conns[id], Peer(s)).closed
  }

  function Sent(n: Net, id: int, s: Side, bytes: Bytes): Net {
    if !Takes(n, id, s) then n
    else
      var e := At(n.conns[id], Peer(s));
      var c := With(n.conns[id], Peer(s), End(e.queue + [bytes], None, e.closed, e.owner));
      n.(conns := n.conns[id := c], tasks := n.tasks + Fired(e))
  }

  function Queue(n: Net, id: int, s: Side): seq<Bytes> {
    if id in n.conns then At(n.conns[id], s).queue else []
  }

  function Received(n: Net, id: int, s: Side): Net {
    if Queue(n, id, s) == [] then n
    else
      var e := At(n.conns[id], s);
      n.(conns := n.conns[id := With(n.conns[id], s, e.(queue := e.queue[1..]))])
  }

  predicate Eof(n: Net, id: int, s: Side) {
    id in n.conns ==> At(n.conns[id], Peer(s)).closed && At(n.conns[id], s).queue == []
  }

  /** There is something for the side to see: bytes, the other end's closing, or that the connection is gone. */
  predicate Readable(n: Net, id: int, s: Side) {
    id in n.conns ==> At(n.conns[id], s).queue != [] || At(n.conns[id], Peer(s)).closed
  }

  function Registered(n: Net, id: int, s: Side, callback: nat): Net {
    if Readable(n, id, s) then n.(tasks := n.tasks + [Ready(callback)])
    else
      var e := At(n.conns[id], s).(wake := Some(callback));
      n.(conns := n.conns[id := With(n.conns[id], s, e)])
  }

  function Closed(n: Net, id: int, s: Side): Net {
    if id !in n.conns then n
    else
      var c := n.conns[id];
      var other := At(c, Peer(s));
      var d := With(With(c, s, At(c, s).(closed := true)), Peer(s), Woken(other));
      var conns := if other.closed then n.conns - {id} else n.conns[id := d];
      n.(conns := conns, tasks := n.tasks + Fired(other))
  }

  /** Whether a program is behind a side that is still open. */
  predicate Owns(n: Net, id: int, s: Side, owner: string) {
    id in n.conns && At(n.conns[id], s).owner == owner && !At(n.conns[id], s).closed
  }

  function OneReleased(n: Net, id: int, owner: string): Net {
    var m := if Owns(n, id, A, owner) then Closed(n, id, A) else n;
    if Owns(n, id, B, owner) then Closed(m, id, B) else m
  }

  /** The connections before upto released, in the order they were made. */
  function ConnsReleased(n: Net, upto: int, owner: string): Net
    decreases upto
  {
    if upto <= 1 then n else OneReleased(ConnsReleased(n, upto - 1, owner), upto - 1, owner)
  }

  function OwnedPorts(ports: map<int, Listener>, owner: string): set<int> {
    set port | port in ports && ports[port].owner == owner
  }

  function Released(n: Net, owner: string): Net {
    if owner == "" then n
    else ConnsReleased(n.(ports := n.ports - OwnedPorts(n.ports, owner)), n.nextId, owner)
  }

  function Step(n: Net, op: Op): Net {
    match op
    case Listen(port, cb, owner) => if port in n.ports then n else n.(ports := n.ports[port := Listener(cb, owner)])
    case Unlisten(port) => n.(ports := n.ports - {port})
    case Dial(port, owner) => Dialled(n, port, owner)
    case Release(owner) => Released(n, owner)
    case Send(id, s, bytes) => Sent(n, id, s, bytes)
    case Recv(id, s) => Received(n, id, s)
    case OnReadable(id, s, cb) => Registered(n, id, s, cb)
    case Close(id, s) => Closed(n, id, s)
  }

  function Run(n: Net, ops: seq<Op>): Net
    decreases |ops|
  {
    if ops == [] then n else Run(Step(n, ops[0]), ops[1..])
  }

  // ---- what goes where ----

  /** A port is taken when it is free, and given up. */
  lemma ListenMeans(n: Net, port: int, onConn: nat, owner: string)
    ensures
      var m := Step(n, Listen(port, onConn, owner));
      if port in n.ports then m == n else m == n.(ports := n.ports[port := Listener(onConn, owner)])
    ensures
      var m := Step(n, Unlisten(port));
      m == n.(ports := m.ports) && port !in m.ports &&
      forall p :: p != port ==> (p in m.ports <==> p in n.ports) && (p in m.ports ==> m.ports[p] == n.ports[p])
  {
  }

  /** A dial makes a connection with nothing on its way, its first side the dialer's and its second the listener's, and
      tells the listener of it. */
  lemma DialMeans(n: Net, port: int, owner: string)
    ensures
      var m := Step(n, Dial(port, owner));
      if port !in n.ports then m == n
      else
        && m.conns == n.conns[n.nextId := m.conns[n.nextId]] && m.nextId == n.nextId + 1 && m.ports == n.ports
        && m.conns[n.nextId].a == End([], None, false, owner)
        && m.conns[n.nextId].b == End([], None, false, n.ports[port].owner)
        && m.tasks == n.tasks + [Accept(n.ports[port].onConn, n.nextId)]
  {
  }

  /** What a side sends waits for the other one, after what already does, unless that one has closed; a wakeup that
      waits there fires. */
  lemma SendMeans(n: Net, id: int, bytes: Bytes)
    requires id in n.conns
    ensures
      var c := n.conns[id];
      && Step(n, Send(id, A, bytes)) ==
        (if c.b.closed then n
         else n.(conns := n.conns[id := Conn(c.a, c.b.(queue := c.b.queue + [bytes], wake := None))],
                 tasks := n.tasks + if c.b.wake.Some? then [Ready(c.b.wake.value)] else []))
      && Step(n, Send(id, B, bytes)) ==
        (if c.a.closed then n
         else n.(conns := n.conns[id := Conn(c.a.(queue := c.a.queue + [bytes], wake := None), c.b)],
                 tasks := n.tasks + if c.a.wake.Some? then [Ready(c.a.wake.value)] else []))
  {
  }

  function AfterFirst<T>(s: seq<T>): seq<T> {
    if s == [] then [] else s[1..]
  }

  /** A side takes what waits for it, the oldest first. */
  lemma RecvMeans(n: Net, id: int)
    requires id in n.conns
    ensures
      var c := n.conns[id];
      && Step(n, Recv(id, A)) == n.(conns := n.conns[id := Conn(c.a.(queue := AfterFirst(c.a.queue)), c.b)])
      && Step(n, Recv(id, B)) == n.(conns := n.conns[id := Conn(c.a, c.b.(queue := AfterFirst(c.b.queue)))])
  {
  }

  /** On a new connection each side gets what the other sends, and not what it sends itself. */
  lemma EachHearsTheOther(n: Net, port: int, owner: string, x: Bytes, y: Bytes)
    requires port in n.ports
    ensures
      var id := n.nextId;
      var m := Run(n, [Dial(port, owner), Send(id, A, x), Send(id, B, y)]);
      id in m.conns && m.conns[id].b.queue == [x] && m.conns[id].a.queue == [y]
  {
    var id := n.nextId;
    var ops := [Dial(port, owner), Send(id, A, x), Send(id, B, y)];
    var n1 := Step(n, ops[0]);
    var n2 := Step(n1, ops[1]);
    DialMeans(n, port, owner);
    SendMeans(n1, id, x);
    SendMeans(n2, id, y);
    assert ops[1..] == [ops[1], ops[2]] && [ops[1], ops[2]][1..] == [ops[2]] && [ops[2]][1..] == [];
    assert Run(n2, [ops[2]]) == Run(Step(n2, ops[2]), []);
    assert Run(n1, [ops[1], ops[2]]) == Run(n2, [ops[2]]);
    assert [] + [x] == [x] && [] + [y] == [y];
  }

  // ---- every reachable state ----

  /** A wakeup waits only for a side with nothing to read whose other end is open. */
  predicate Waits(e: End, other: End) {
    e.wake.Some? ==> e.queue == [] && !other.closed
  }

  /** Ids are never used again, a connection is dropped once both ends have closed, and wakeups wait only where
      there is nothing to see. */
  ghost predicate Inv(n: Net) {
    && 1 <= n.nextId
    && (forall id :: id in n.conns ==> 1 <= id < n.nextId)
    && (forall id :: id in n.conns ==> ConnOk(n.conns[id]))
  }

  predicate ConnOk(c: Conn) {
    !(c.a.closed && c.b.closed) && Waits(c.a, c.b) && Waits(c.b, c.a)
  }

  lemma PortsAside(n: Net, ports: map<int, Listener>)
    requires Inv(n)
    ensures Inv(n.(ports := ports))
  {
  }

  lemma ReleaseOneKeeps(n: Net, id: int, owner: string)
    requires Inv(n)
    ensures Inv(OneReleased(n, id, owner)) && OneReleased(n, id, owner).nextId == n.nextId
  {
  }

  lemma {:induction false} ReleaseKeeps(n: Net, upto: int, owner: string)
    requires Inv(n)
    ensures Inv(ConnsReleased(n, upto, owner)) && ConnsReleased(n, upto, owner).nextId == n.nextId
    decreases upto
  {
    if upto > 1 {
      ReleaseKeeps(n, upto - 1, owner);
      ReleaseOneKeeps(ConnsReleased(n, upto - 1, owner), upto - 1, owner);
    }
  }

  lemma StepKeeps(n: Net, op: Op)
    requires Inv(n)
    ensures Inv(Step(n, op)) && n.nextId <= Step(n, op).nextId
  {
    if op.Release? && op.owner != "" {
      ReleaseKeeps(n.(ports := n.ports - OwnedPorts(n.ports, op.owner)), n.nextId, op.owner);
    }
  }

  /** In every run a wakeup that is registered has nothing to read and its other end is open. */
  lemma {:induction false} RunKeeps(n: Net, ops: seq<Op>)
    requires Inv(n)
    ensures Inv(Run(n, ops)) && n.nextId <= Run(n, ops).nextId
    decreases |ops|
  {
    if ops != [] {
      StepKeeps(n, ops[0]);
      RunKeeps(Step(n, ops[0]), ops[1..]);
    }
  }

  // ---- bytes arrive in order ----

  function Flat(chunks: seq<Bytes>): Bytes {
    if chunks == [] then [] else chunks[0] + Flat(chunks[1..])
  }

  /** The bytes an operation adds for a side to read. */
  function AddedBy(n: Net, op: Op, id: int, s: Side): Bytes {
    if op.Send? && op.id == id && op.side == Peer(s) && Takes(n, id, op.side) then op.bytes else []
  }

  /** The bytes an operation hands to a side. */
  function GivenBy(n: Net, op: Op, id: int, s: Side): Bytes {
    if op.Recv? && op.id == id && op.side == s && Queue(n, id, s) != [] then Queue(n, id, s)[0] else []
  }

  function Added(n: Net, ops: seq<Op>, id: int, s: Side): Bytes
    decreases |ops|
  {
    if ops == [] then [] else AddedBy(n, ops[0], id, s) + Added(Step(n, ops[0]), ops[1..], id, s)
  }

  function Given(n: Net, ops: seq<Op>, id: int, s: Side): Bytes
    decreases |ops|
  {
    if ops == [] then [] else GivenBy(n, ops[0], id, s) + Given(Step(n, ops[0]), ops[1..], id, s)
  }

  lemma {:induction false} FlatAppend(chunks: seq<Bytes>, c: Bytes)
    ensures Flat(chunks + [c]) == Flat(chunks) + c
    decreases |chunks|
  {
    if chunks == [] {
      assert chunks + [c] == [c] && Flat([c]) == c + Flat([]) == c;
    } else {
      assert (chunks + [c])[0] == chunks[0] && (chunks + [c])[1..] == chunks[1..] + [c];
      FlatAppend(chunks[1..], c);
      Assoc(chunks[0], Flat(chunks[1..]), c);
    }
  }

  /** What a connection is once a program's sides have been closed: gone, when that leaves neither open. */
  function Shut(c: Conn, owner: string): Conn {
    var a := c.a.closed || c.a.owner == owner;
    var b := c.b.closed || c.b.owner == owner;
    Conn(c.a.(closed := a, wake := if b then None else c.a.wake),
         c.b.(closed := b, wake := if a then None else c.b.wake))
  }

  predicate ShutAt(n: Net, m: Net, id: int, owner: string) {
    if id !in n.conns then id !in m.conns
    else
      var c := Shut(n.conns[id], owner);
      if c.a.closed && c.b.closed then id !in m.conns else id in m.conns && m.conns[id] == c
  }

  predicate SameAt(n: Net, m: Net, id: int) {
    (id in n.conns <==> id in m.conns) && (id in n.conns ==> n.conns[id] == m.conns[id])
  }

  lemma OneReleasedAt(n: Net, id: int, owner: string, k: int)
    requires Inv(n)
    ensures k != id ==> SameAt(n, OneReleased(n, id, owner), k)
    ensures ShutAt(n, OneReleased(n, id, owner), id, owner)
  {
  }

  lemma {:induction false} ConnsReleasedAt(n: Net, upto: int, owner: string, k: int)
    requires Inv(n)
    ensures 1 <= k < upto ==> ShutAt(n, ConnsReleased(n, upto, owner), k, owner)
    ensures k >= upto || k < 1 ==> SameAt(n, ConnsReleased(n, upto, owner), k)
    decreases upto
  {
    if upto > 1 {
      ConnsReleasedAt(n, upto - 1, owner, k);
      ReleaseKeeps(n, upto - 1, owner);
      OneReleasedAt(ConnsReleased(n, upto - 1, owner), upto - 1, owner, k);
    }
  }

  /** A connection after a release of a program's name. */
  lemma ReleasedAt(n: Net, owner: string, id: int)
    requires Inv(n) && owner != ""
    ensures ShutAt(n, Released(n, owner), id, owner)
  {
    var m := n.(ports := n.ports - OwnedPorts(n.ports, owner));
    ConnsReleasedAt(m, n.nextId, owner, id);
  }

  /** What could be read and what was added is what was given and what can still be read. */
  predicate StepBalance(n: Net, op: Op, id: int, s: Side) {
    Flat(Queue(n, id, s)) + AddedBy(n, op, id, s) == GivenBy(n, op, id, s) + Flat(Queue(Step(n, op), id, s))
  }

  /** A byte that was there or was added is given or still there, unless the connection goes. */
  predicate LosesNothing(n: Net, op: Op, id: int, s: Side) {
    if id in n.conns && id !in Step(n, op).conns then GivenBy(n, op, id, s) == AddedBy(n, op, id, s) == []
    else StepBalance(n, op, id, s)
  }

  lemma SendLosesNothing(n: Net, op: Op, id: int, s: Side)
    requires op.Send?
    ensures LosesNothing(n, op, id, s)
  {
    hide Flat;
    var q := Queue(n, id, s);
    assert Flat(q) + [] == Flat(q) && [] + Flat(q) == Flat(q);
    FlatAppend(q, op.bytes);
    assert [] + Flat(q + [op.bytes]) == Flat(q + [op.bytes]);
  }

  lemma RecvLosesNothing(n: Net, op: Op, id: int, s: Side)
    requires op.Recv?
    ensures LosesNothing(n, op, id, s)
  {
    var q := Queue(n, id, s);
    assert Flat(q) + [] == Flat(q) && [] + Flat(q) == Flat(q);
  }

  lemma ReleaseLosesNothing(n: Net, op: Op, id: int, s: Side)
    requires Inv(n) && op.Release? && op.owner != ""
    ensures LosesNothing(n, op, id, s)
  {
    hide ConnsReleased, Flat;
    ReleasedAt(n, op.owner, id);
    assert Queue(Step(n, op), id, s) == Queue(n, id, s) || (id in n.conns && id !in Step(n, op).conns);
  }

  /** One operation loses no byte of a connection that is still there after it. */
  lemma StepInOrder(n: Net, op: Op, id: int, s: Side)
    requires Inv(n)
    ensures LosesNothing(n, op, id, s)
  {
    if op.Send? {
      SendLosesNothing(n, op, id, s);
    } else if op.Recv? {
      RecvLosesNothing(n, op, id, s);
    } else if op.Release? && op.owner != "" {
      ReleaseLosesNothing(n, op, id, s);
    } else {
      OthersLoseNothing(n, op, id, s);
    }
  }

  lemma OthersLoseNothing(n: Net, op: Op, id: int, s: Side)
    requires Inv(n) && !op.Send? && !op.Recv? && (op.Release? ==> op.owner == "")
    ensures LosesNothing(n, op, id, s)
  {
    hide ConnsReleased, Flat;
    assert Queue(Step(n, op), id, s) == Queue(n, id, s) || (id in n.conns && id !in Step(n, op).conns);
  }

  lemma Joined(q: Bytes, add: Bytes, giv: Bytes, q2: Bytes, adds: Bytes, givs: Bytes, last: Bytes)
    requires q + add == giv + q2
    ensures givs <= q2 + adds ==> giv + givs <= q + (add + adds)
    ensures q2 + adds == givs + last ==> q + (add + adds) == giv + givs + last
  {
    Assoc(q, add, adds);
    Assoc(giv, q2, adds);
    Assoc(giv, givs, last);
    if givs <= q2 + adds {
      assert q2 + adds == givs + (q2 + adds)[|givs|..];
      Assoc(giv, givs, (q2 + adds)[|givs|..]);
    }
  }

  /** A connection that is gone never comes back and carries nothing more. */
  lemma {:induction false} GoneStays(n: Net, ops: seq<Op>, id: int, s: Side)
    requires Inv(n) && id !in n.conns && id < n.nextId
    ensures id !in Run(n, ops).conns
    ensures Added(n, ops, id, s) == Given(n, ops, id, s) == []
    decreases |ops|
  {
    if ops != [] {
      StepKeeps(n, ops[0]);
      if ops[0].Release? && ops[0].owner != "" {
        ReleasedAt(n, ops[0].owner, id);
      }
      GoneStays(Step(n, ops[0]), ops[1..], id, s);
    }
  }

  /** In every run a side is given the bytes sent to it, in order: while the connection is there they are exactly
      what it was given and what waits for it, and they begin with what it was given for ever after. */
  lemma {:induction false} BytesInOrder(n: Net, ops: seq<Op>, id: int, s: Side)
    requires Inv(n)
    ensures Given(n, ops, id, s) <= Flat(Queue(n, id, s)) + Added(n, ops, id, s)
    ensures id in Run(n, ops).conns ==> Balance(n, ops, id, s)
    decreases |ops|
  {
    hide Step;
    if ops != [] {
      var m := Step(n, ops[0]);
      StepKeeps(n, ops[0]);
      StepInOrder(n, ops[0], id, s);
      if id in n.conns && id !in m.conns {
        GoneStays(m, ops[1..], id, s);
      } else {
        BytesInOrder(m, ops[1..], id, s);
        Joined(Flat(Queue(n, id, s)), AddedBy(n, ops[0], id, s), GivenBy(n, ops[0], id, s), Flat(Queue(m, id, s)),
               Added(m, ops[1..], id, s), Given(m, ops[1..], id, s), Flat(Queue(Run(n, ops), id, s)));
      }
    }
  }

  predicate Balance(n: Net, ops: seq<Op>, id: int, s: Side) {
    Flat(Queue(n, id, s)) + Added(n, ops, id, s) == Given(n, ops, id, s) + Flat(Queue(Run(n, ops), id, s))
  }

  /** The side closes its end, or its program is released. */
  predicate Leaves(n: Net, op: Op, id: int, s: Side) {
    || (op.Close? && op.id == id && op.side == s)
    || (op.Release? && op.owner != "" && id in n.conns && op.owner == At(n.conns[id], s).owner)
  }

  predicate NeverLeaves(n: Net, ops: seq<Op>, id: int, s: Side)
    decreases |ops|
  {
    ops == [] || (!Leaves(n, ops[0], id, s) && NeverLeaves(Step(n, ops[0]), ops[1..], id, s))
  }

  lemma StayingOneStep(n: Net, op: Op, id: int, s: Side)
    requires Inv(n) && id in n.conns && !At(n.conns[id], s).closed && !Leaves(n, op, id, s)
    ensures id in Step(n, op).conns && !At(Step(n, op).conns[id], s).closed
  {
    hide ConnsReleased;
    if op.Release? && op.owner != "" {
      ReleasedAt(n, op.owner, id);
    }
  }

  /** A side that stays keeps its connection, whatever the other side does. */
  lemma {:induction false} StayingKeepsTheConnection(n: Net, ops: seq<Op>, id: int, s: Side)
    requires Inv(n) && id in n.conns && !At(n.conns[id], s).closed && NeverLeaves(n, ops, id, s)
    ensures id in Run(n, ops).conns && !At(Run(n, ops).conns[id], s).closed
    decreases |ops|
  {
    hide Step, Leaves;
    if ops != [] {
      StepKeeps(n, ops[0]);
      StayingOneStep(n, ops[0], id, s);
      StayingKeepsTheConnection(Step(n, ops[0]), ops[1..], id, s);
    }
  }

  // ---- the end of the stream ----

  /** On a connection from its dialling on, a side that stays and reads the end of the stream has been given
      every byte that was sent to it, and the other end has closed. */
  lemma EofMeansAllWasRead(ops: seq<Op>, id: int, s: Side)
    requires id in Run(EMPTY, ops).conns && Eof(Run(EMPTY, ops), id, s)
    ensures Given(EMPTY, ops, id, s) == Added(EMPTY, ops, id, s)
    ensures At(Run(EMPTY, ops).conns[id], Peer(s)).closed
  {
    BytesInOrder(EMPTY, ops, id, s);
    assert Given(EMPTY, ops, id, s) + [] == Given(EMPTY, ops, id, s);
    assert [] + Added(EMPTY, ops, id, s) == Added(EMPTY, ops, id, s);
  }

  /** The other end sends once more, and the send is taken. */
  predicate Speaks(n: Net, op: Op, id: int, s: Side) {
    op.Send? && op.id == id && op.side == Peer(s) && Takes(n, id, op.side)
  }

  /** The end of the stream is undone by exactly one thing: a send by the end that had closed. */
  lemma EofUndone(n: Net, op: Op, id: int, s: Side)
    requires Inv(n) && id < n.nextId && Eof(n, id, s)
    ensures Eof(Step(n, op), id, s) <==> !Speaks(n, op, id, s)
  {
    if op.Release? && op.owner != "" {
      ReleasedAt(n, op.owner, id);
    }
  }

  /** Nothing checks that: a connection whose accepter closes and then sends. */
  lemma EofNeedNotStay()
    ensures
      var ops := [Listen(80, 0, ""), Dial(80, ""), Close(1, B)];
      Eof(Run(EMPTY, ops), 1, A) && !Eof(Run(EMPTY, ops + [Send(1, B, [])]), 1, A)
  {
    var ops := [Listen(80, 0, ""), Dial(80, ""), Close(1, B)];
    var n1 := Step(EMPTY, ops[0]);
    var n2 := Step(n1, ops[1]);
    var n3 := Step(n2, ops[2]);
    var last := Send(1, B, []);
    assert Run(n3, [last]) == Run(Step(n3, last), []);
    assert ops[1..][1..] == [ops[2]] && (ops + [last])[1..][1..][1..] == [last];
    assert Run(n2, [ops[2]]) == Run(n3, []);
    assert Run(n2, [ops[2], last]) == Run(n3, [last]);
    assert ops[1..] == [ops[1], ops[2]] && (ops + [last])[1..] == [ops[1], ops[2], last];
    assert [ops[1], ops[2], last][1..] == [ops[2], last];
    assert Run(n1, ops[1..]) == Run(n2, [ops[2]]);
    assert Run(n1, (ops + [last])[1..]) == Run(n2, [ops[2], last]);
  }

  /** No side sends after it has closed. */
  predicate Polite(n: Net, ops: seq<Op>)
    decreases |ops|
  {
    ops == [] || (PoliteStep(n, ops[0]) && Polite(Step(n, ops[0]), ops[1..]))
  }

  predicate PoliteStep(n: Net, op: Op) {
    op.Send? && op.id in n.conns ==> !At(n.conns[op.id], op.side).closed
  }

  /** With that, the end of the stream stays, and nothing is given after it. */
  lemma {:induction false} EofStays(n: Net, ops: seq<Op>, id: int, s: Side)
    requires Inv(n) && id < n.nextId && Eof(n, id, s) && Polite(n, ops)
    ensures Eof(Run(n, ops), id, s)
    ensures Given(n, ops, id, s) == Added(n, ops, id, s) == []
    decreases |ops|
  {
    hide Step;
    if ops != [] {
      StepKeeps(n, ops[0]);
      EofUndone(n, ops[0], id, s);
      EofStays(Step(n, ops[0]), ops[1..], id, s);
    }
  }

  // ---- wakeups ----

  /** How often a wakeup has fired. */
  function Times(tasks: seq<Task>, cb: nat): nat {
    if tasks == [] then 0 else (if tasks[0] == Ready(cb) then 1 else 0) + Times(tasks[1..], cb)
  }

  lemma {:induction false} TimesAppend(a: seq<Task>, b: seq<Task>, cb: nat)
    ensures Times(a + b, cb) == Times(a, cb) + Times(b, cb)
    decreases |a|
  {
    if a == [] {
      assert a + b == b;
    } else {
      assert (a + b)[0] == a[0] && (a + b)[1..] == a[1..] + b;
      TimesAppend(a[1..], b, cb);
    }
  }

  predicate WaitsFor(n: Net, id: int, s: Side, cb: nat) {
    id in n.conns && At(n.conns[id], s).wake == Some(cb)
  }

  /** The wakeup was never asked for. */
  ghost predicate Unasked(n: Net, cb: nat) {
    Times(n.tasks, cb) == 0 && forall id, s :: !WaitsFor(n, id, s, cb)
  }

  /** The wakeup has fired once and is forgotten, or has not and waits on its side, with nothing to read and the
      other end open. */
  ghost predicate FiredOrWaits(n: Net, id: int, s: Side, cb: nat) {
    && (forall k, z :: WaitsFor(n, k, z, cb) ==> k == id && z == s)
    && Times(n.tasks, cb) == (if WaitsFor(n, id, s, cb) then 0 else 1)
    && (WaitsFor(n, id, s, cb) ==> !Readable(n, id, s))
  }

  /** One side's wakeup fires, or a task that is none is queued. */
  lemma FiredTimes(tasks: seq<Task>, e: End, t: Task, cb: nat)
    ensures Times(tasks + Fired(e), cb) == Times(tasks, cb) + (if e.wake == Some(cb) then 1 else 0)
    ensures Times(tasks + [t], cb) == Times(tasks, cb) + (if t == Ready(cb) then 1 else 0)
  {
    TimesAppend(tasks, Fired(e), cb);
    TimesAppend(tasks, [t], cb);
    assert [t][1..] == [];
    assert e.wake.Some? ==> Fired(e)[1..] == [];
  }

  lemma ClosedFires(n: Net, k: int, z: Side, id: int, s: Side, cb: nat)
    requires Inv(n) && FiredOrWaits(n, id, s, cb)
    ensures FiredOrWaits(Closed(n, k, z), id, s, cb)
  {
    hide Times;
    if k in n.conns {
      FiredTimes(n.tasks, At(n.conns[k], Peer(z)), Ready(0), cb);
      assert WaitsFor(n, k, Peer(z), cb) <==> At(n.conns[k], Peer(z)).wake == Some(cb);
    }
    var m := Closed(n, k, z);
    forall i, y | WaitsFor(m, i, y, cb) ensures WaitsFor(n, i, y, cb) {}
  }

  lemma PortsFires(n: Net, ports: map<int, Listener>, id: int, s: Side, cb: nat)
    requires FiredOrWaits(n, id, s, cb)
    ensures FiredOrWaits(n.(ports := ports), id, s, cb)
  {
    var m := n.(ports := ports);
    forall i, y | WaitsFor(m, i, y, cb) ensures WaitsFor(n, i, y, cb) {}
  }

  lemma ClosedInv(n: Net, k: int, z: Side)
    requires Inv(n)
    ensures Inv(Closed(n, k, z))
  {
  }

  lemma OneReleaseFires(n: Net, k: int, owner: string, id: int, s: Side, cb: nat)
    requires Inv(n) && FiredOrWaits(n, id, s, cb)
    ensures FiredOrWaits(OneReleased(n, k, owner), id, s, cb)
  {
    hide FiredOrWaits, Closed, Inv;
    ClosedInv(n, k, A);
    ClosedFires(n, k, A, id, s, cb);
    ClosedFires(n, k, B, id, s, cb);
    ClosedFires(Closed(n, k, A), k, B, id, s, cb);
  }

  lemma {:induction false} ReleaseFires(n: Net, upto: int, owner: string, id: int, s: Side, cb: nat)
    requires Inv(n) && FiredOrWaits(n, id, s, cb)
    ensures FiredOrWaits(ConnsReleased(n, upto, owner), id, s, cb)
    decreases upto
  {
    hide FiredOrWaits, Inv, OneReleased;
    if upto > 1 {
      ReleaseKeeps(n, upto - 1, owner);
      ReleaseFires(n, upto - 1, owner, id, s, cb);
      OneReleaseFires(ConnsReleased(n, upto - 1, owner), upto - 1, owner, id, s, cb);
    }
  }

  lemma QueueFires(n: Net, op: Op, id: int, s: Side, cb: nat)
    requires Inv(n) && FiredOrWaits(n, id, s, cb) && (op.Send? || op.Dial? || op.Recv?)
    ensures FiredOrWaits(Step(n, op), id, s, cb)
  {
    hide Times;
    if op.Send? && op.id in n.conns {
      FiredTimes(n.tasks, At(n.conns[op.id], Peer(op.side)), Ready(0), cb);
      assert WaitsFor(n, op.id, Peer(op.side), cb) <==> At(n.conns[op.id], Peer(op.side)).wake == Some(cb);
    } else if op.Dial? && op.port in n.ports {
      FiredTimes(n.tasks, End([], None, false, ""), Accept(n.ports[op.port].onConn, n.nextId), cb);
    }
    var m := Step(n, op);
    forall i, y | WaitsFor(m, i, y, cb) ensures WaitsFor(n, i, y, cb) {}
  }

  lemma OthersFire(n: Net, op: Op, id: int, s: Side, cb: nat)
    requires Inv(n) && FiredOrWaits(n, id, s, cb) && !Asks(op, id, s, cb)
    requires op.OnReadable? || op.Listen? || op.Unlisten?
    ensures FiredOrWaits(Step(n, op), id, s, cb)
  {
    hide Times;
    if op.OnReadable? {
      FiredTimes(n.tasks, End([], None, false, ""), Ready(op.callback), cb);
    }
    var m := Step(n, op);
    forall i, y | WaitsFor(m, i, y, cb) ensures WaitsFor(n, i, y, cb) {}
  }

  /** Does the operation ask for this wakeup, or for one on this side in its place? */
  predicate Asks(op: Op, id: int, s: Side, cb: nat) {
    op.OnReadable? && (op.callback == cb || (op.id == id && op.side == s))
  }

  lemma StepFires(n: Net, op: Op, id: int, s: Side, cb: nat)
    requires Inv(n) && FiredOrWaits(n, id, s, cb) && !Asks(op, id, s, cb)
    ensures FiredOrWaits(Step(n, op), id, s, cb)
  {
    hide FiredOrWaits, ConnsReleased;
    match op
    case Send(_, _, _) => QueueFires(n, op, id, s, cb);
    case Dial(_, _) => QueueFires(n, op, id, s, cb);
    case Recv(_, _) => QueueFires(n, op, id, s, cb);
    case Close(k, z) => ClosedFires(n, k, z, id, s, cb);
    case Release(owner) =>
      var ports := n.ports - OwnedPorts(n.ports, owner);
      PortsFires(n, ports, id, s, cb);
      if owner != "" { ReleaseFires(n.(ports := ports), n.nextId, owner, id, s, cb); }
    case _ => OthersFire(n, op, id, s, cb);
  }

  /** No wakeup is lost and none fires twice: in every run in which the side does not ask for another, one that was
      asked for has fired once, or it waits and there is nothing to see. */
  lemma {:induction false} NoWakeupIsLost(n: Net, ops: seq<Op>, id: int, s: Side, cb: nat)
    requires Inv(n) && FiredOrWaits(n, id, s, cb)
    requires forall k :: 0 <= k < |ops| ==> !Asks(ops[k], id, s, cb)
    ensures FiredOrWaits(Run(n, ops), id, s, cb)
    decreases |ops|
  {
    hide Step, FiredOrWaits, Inv;
    if ops != [] {
      StepKeeps(n, ops[0]);
      StepFires(n, ops[0], id, s, cb);
      NoWakeupIsLost(Step(n, ops[0]), ops[1..], id, s, cb);
    }
  }

  /** Asking for a new wakeup starts that: it fires at once exactly when there is something to see. */
  lemma AskedFiresOrWaits(n: Net, id: int, s: Side, cb: nat)
    requires Inv(n) && Unasked(n, cb)
    ensures
      var m := Step(n, OnReadable(id, s, cb));
      FiredOrWaits(m, id, s, cb) && (Times(m.tasks, cb) == 1 <==> Readable(n, id, s))
  {
    hide Times;
    FiredTimes(n.tasks, End([], None, false, ""), Ready(cb), cb);
    var m := Step(n, OnReadable(id, s, cb));
    forall i, y | WaitsFor(m, i, y, cb) && !(i == id && y == s) ensures WaitsFor(n, i, y, cb) {}
  }

  // ---- releasing a program ----

  /** After a release the program has no port and no open side; every other port is untouched; the connections
      that keep an open side keep their queues, and exactly those are still there. */
  lemma ReleaseLeavesNothing(n: Net, owner: string)
    requires Inv(n) && owner != ""
    ensures OwnedPorts(Released(n, owner).ports, owner) == {}
    ensures forall p :: p in n.ports && n.ports[p].owner != owner ==> PortKept(n, Released(n, owner), p)
    ensures forall id, s :: !Owns(Released(n, owner), id, s, owner)
    ensures forall id, s :: id in n.conns ==> KeptAt(n, Released(n, owner), id, s, owner)
  {
    ReleasedPorts(n, owner);
    forall id, s: Side
      ensures !Owns(Released(n, owner), id, s, owner)
      ensures id in n.conns ==> KeptAt(n, Released(n, owner), id, s, owner)
    {
      ReleasedAt(n, owner, id);
    }
  }

  predicate PortKept(n: Net, m: Net, port: int)
    requires port in n.ports
  {
    port in m.ports && m.ports[port] == n.ports[port]
  }

  /** A connection stays exactly when a side of another program is open; its queues stay, and a side is closed
      after the release exactly when it was before or belongs to the program. */
  predicate KeptAt(n: Net, m: Net, id: int, s: Side, owner: string)
    requires id in n.conns
  {
    var c := n.conns[id];
    && (id in m.conns <==> OpenElsewhere(c.a, owner) || OpenElsewhere(c.b, owner))
    && (id in m.conns ==> At(m.conns[id], s).queue == At(c, s).queue)
    && (id in m.conns ==> (At(m.conns[id], s).closed <==> !OpenElsewhere(At(c, s), owner)))
  }

  predicate OpenElsewhere(e: End, owner: string) {
    !e.closed && e.owner != owner
  }

  lemma {:induction false} ConnsReleasedPorts(n: Net, upto: int, owner: string)
    ensures ConnsReleased(n, upto, owner).ports == n.ports
    decreases upto
  {
    if upto > 1 {
      ConnsReleasedPorts(n, upto - 1, owner);
    }
  }

  lemma ReleasedPorts(n: Net, owner: string)
    requires owner != ""
    ensures Released(n, owner).ports == n.ports - OwnedPorts(n.ports, owner)
  {
    ConnsReleasedPorts(n.(ports := n.ports - OwnedPorts(n.ports, owner)), n.nextId, owner);
  }

  /** How many open sides of a program the connections before upto have. */
  function OpenSides(n: Net, upto: int, owner: string): nat
    decreases upto
  {
    if upto <= 1 then 0
    else
      OpenSides(n, upto - 1, owner)
        + (if Owns(n, upto - 1, A, owner) then 1 else 0) + (if Owns(n, upto - 1, B, owner) then 1 else 0)
  }

  // ---- the page's object ----

  class Network {
    var nextId: int
    var ports: map<int, Listener>
    var conns: map<int, Conn>
    var tasks: seq<Task>

    function State(): Net
      reads this
    {
      Net(nextId, ports, conns, tasks)
    }

    constructor ()
      ensures State() == EMPTY && Inv(State())
    {
      nextId, ports, conns, tasks := 1, map[], map[], [];
    }

    method WakeSide(id: int, s: Side)
      requires id in conns
      modifies this`conns, this`tasks
      ensures conns == old(conns)[id := With(old(conns)[id], s, Woken(At(old(conns)[id], s)))]
      ensures tasks == old(tasks) + Fired(At(old(conns)[id], s))
    {
      var e := At(conns[id], s);
      if e.wake.Some? {
        conns := conns[id := With(conns[id], s, e.(wake := None))];
        tasks := tasks + [Ready(e.wake.value)];
      }
    }

    method Listen(port: int, onConn: nat, owner: string) returns (ok: bool)
      requires Inv(State())
      modifies this
      ensures State() == Step(old(State()), Op.Listen(port, onConn, owner)) && Inv(State())
      ensures ok <==> port !in old(ports)
    {
      if port in ports {
        return false;
      }
      ports := ports[port := Listener(onConn, owner)];
      return true;
    }

    method Unlisten(port: int)
      requires Inv(State())
      modifies this
      ensures State() == Step(old(State()), Op.Unlisten(port)) && Inv(State())
    {
      ports := ports - {port};
    }

    method Dial(port: int, owner: string) returns (id: int)
      requires Inv(State())
      modifies this
      ensures State() == Step(old(State()), Op.Dial(port, owner)) && Inv(State())
      ensures port !in ports ==> id == -1
      ensures port in ports ==> id !in old(conns) && id in conns
    {
      if port !in ports {
        return -1;
      }
      var l := ports[port];
      id := nextId;
      nextId := nextId + 1;
      conns := conns[id := Conn(End([], None, false, owner), End([], None, false, l.owner))];
      tasks := tasks + [Accept(l.onConn, id)];
    }

    /** releaseOwner. The count is of the ports and open sides the program had. */
    method ReleaseOwner(owner: string) returns (count: nat)
      requires Inv(State())
      modifies this
      ensures State() == Step(old(State()), Op.Release(owner)) && Inv(State())
      ensures count == if owner == "" then 0
        else |OwnedPorts(old(ports), owner)| + OpenSides(old(State()), old(nextId), owner)
    {
      hide Inv, ConnOk;
      if owner == "" {
        return 0;
      }
      var owned := OwnedPorts(ports, owner);
      count := |owned|;
      PortsAside(State(), ports - owned);
      ports := ports - owned;
      ghost var was := State();
      var id := 1;
      while id < nextId
        invariant 1 <= id <= nextId == was.nextId
        invariant State() == ConnsReleased(was, id, owner) && Inv(State())
        invariant count == |owned| + OpenSides(was, id, owner)
      {
        ConnsReleasedAt(was, id, owner, id);
        ReleaseOneKeeps(State(), id, owner);
        if id in conns {
          var c := conns[id];
          if c.a.owner == owner && !c.a.closed {
            CloseSide(id, A);
            count := count + 1;
          }
          if c.b.owner == owner && !c.b.closed {
            CloseSide(id, B);
            count := count + 1;
          }
        }
        id := id + 1;
      }
      SidesOf(was, old(State()), nextId, owner);
    }

    method Send(id: int, s: Side, bytes: Bytes) returns (ok: bool)
      requires Inv(State())
      modifies this
      ensures State() == Step(old(State()), Op.Send(id, s, bytes)) && Inv(State())
      ensures ok <==> Takes(old(State()), id, s)
    {
      StepKeeps(State(), Op.Send(id, s, bytes));
      if id !in conns || At(conns[id], Peer(s)).closed {
        return false;
      }
      var e := At(conns[id], Peer(s));
      conns := conns[id := With(conns[id], Peer(s), e.(queue := e.queue + [bytes]))];
      WakeSide(id, Peer(s));
      return true;
    }

    method Recv(id: int, s: Side) returns (r: Option<Bytes>)
      requires Inv(State())
      modifies this
      ensures State() == Step(old(State()), Op.Recv(id, s)) && Inv(State())
      ensures r.None? <==> Queue(old(State()), id, s) == []
      ensures r.Some? ==> r.value == GivenBy(old(State()), Op.Recv(id, s), id, s)
      ensures r.Some? ==> [r.value] + Queue(State(), id, s) == Queue(old(State()), id, s)
    {
      StepKeeps(State(), Op.Recv(id, s));
      if id !in conns {
        return None;
      }
      var e := At(conns[id], s);
      if |e.queue| > 0 {
        conns := conns[id := With(conns[id], s, e.(queue := e.queue[1..]))];
        return Some(e.queue[0]);
      }
      return None;
    }

    method AtEof(id: int, s: Side) returns (r: bool)
      ensures r <==> Eof(State(), id, s)
    {
      if id !in conns {
        return true;
      }
      return At(conns[id], Peer(s)).closed && |At(conns[id], s).queue| == 0;
    }

    method OnReadable(id: int, s: Side, callback: nat)
      requires Inv(State())
      modifies this
      ensures State() == Step(old(State()), Op.OnReadable(id, s, callback)) && Inv(State())
    {
      StepKeeps(State(), Op.OnReadable(id, s, callback));
      if id !in conns {
        tasks := tasks + [Ready(callback)];
        return;
      }
      var e := At(conns[id], s);
      if |e.queue| > 0 || At(conns[id], Peer(s)).closed {
        tasks := tasks + [Ready(callback)];
        return;
      }
      conns := conns[id := With(conns[id], s, e.(wake := Some(callback)))];
    }

    /** close. */
    method CloseSide(id: int, s: Side)
      requires Inv(State())
      modifies this
      ensures State() == Step(old(State()), Op.Close(id, s)) && Inv(State())
    {
      StepKeeps(State(), Op.Close(id, s));
      if id !in conns {
        return;
      }
      conns := conns[id := With(conns[id], s, At(conns[id], s).(closed := true))];
      WakeSide(id, Peer(s));
      if conns[id].a.closed && conns[id].b.closed {
        conns := conns - {id};
      }
    }
  }

  lemma {:induction false} SidesOf(n: Net, m: Net, upto: int, owner: string)
    requires n.conns == m.conns
    ensures OpenSides(n, upto, owner) == OpenSides(m, upto, owner)
    decreases upto
  {
    if upto > 1 {
      SidesOf(n, m, upto - 1, owner);
    }
  }
}
