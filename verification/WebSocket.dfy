/** WebSocket frames over the page's loopback (docs/vnet.js; sections 5.2 to 5.5 of RFC 6455): writing one
    frame, and reading messages from bytes that come in any pieces. */
module WebSocket {
  import opened Wrappers

  type Byte = x: int | 0 <= x < 256

  type Bytes = seq<Byte>

  /** The exclusive or of the low bits of a and b. */
  function XorBits(a: nat, b: nat, bits: nat): (r: nat)
    ensures r < Power(2, bits)
  {
    if bits == 0 then 0 else (a + b) % 2 + 2 * XorBits(a / 2, b / 2, bits - 1)
  }

  function Power(base: nat, n: nat): nat {
    if n == 0 then 1 else base * Power(base, n - 1)
  }

  lemma {:induction false} XorBitsTwice(a: nat, b: nat, bits: nat)
    requires a < Power(2, bits)
    ensures XorBits(XorBits(a, b, bits), b, bits) == a
  {
    if bits > 0 {
      XorBitsTwice(a / 2, b / 2, bits - 1);
      LowBit(a, b, XorBits(a / 2, b / 2, bits - 1));
    }
  }

  lemma LowBit(a: nat, b: nat, y: nat)
    ensures var x := (a + b) % 2 + 2 * y;
      x / 2 == y && (x + b) % 2 == a % 2 && a == a % 2 + 2 * (a / 2)
  {
  }

  lemma Power2Of8()
    ensures Power(2, 8) == 256
  {
    assert Power(2, 4) == 16;
    assert Power(2, 8) == 2 * (2 * (2 * (2 * Power(2, 4))));
  }

  function Xor(a: Byte, b: Byte): Byte {
    Power2Of8();
    XorBits(a, b, 8)
  }

  lemma XorTwice(a: Byte, b: Byte)
    ensures Xor(Xor(a, b), b) == a
  {
    Power2Of8();
    XorBitsTwice(a, b, 8);
  }

  /** Is bit k of n set? Bit 0 is the lowest. */
  predicate Bit(n: nat, k: nat) {
    if k == 0 then n % 2 == 1 else Bit(n / 2, k - 1)
  }

  lemma {:induction false} XorBitsMeans(a: nat, b: nat, bits: nat, k: nat)
    requires k < bits
    ensures Bit(XorBits(a, b, bits), k) <==> Bit(a, k) != Bit(b, k)
    decreases k
  {
    var rest := XorBits(a / 2, b / 2, bits - 1);
    LowBit(a, b, rest);
    OddSum(a, b, rest);
    if k > 0 {
      XorBitsMeans(a / 2, b / 2, bits - 1, k - 1);
    }
  }

  lemma OddSum(a: nat, b: nat, y: nat)
    ensures ((a + b) % 2 + 2 * y) % 2 == 1 <==> (a % 2 == 1) != (b % 2 == 1)
  {
  }

  /** Each bit of the exclusive or is set exactly when it is set in one of the two. */
  lemma XorMeans(a: Byte, b: Byte, k: nat)
    requires k < 8
    ensures Bit(Xor(a, b), k) <==> Bit(a, k) != Bit(b, k)
  {
    XorBitsMeans(a, b, 8, k);
  }

  const OP_CONTINUATION := 0
  const OP_CLOSE := 8
  const OP_PING := 9
  const OP_PONG := 10

  /** A frame as RFC 6455 has it: whether it is a message's last, its opcode, its mask and its payload. */
  datatype Frame = Frame(fin: bool, op: nat, mask: Option<Bytes>, payload: Bytes) {
    ghost predicate Valid() {
      op < 16 && (mask.Some? ==> |mask.value| == 4)
    }
  }

  // ---- writing ----

  function Masked(p: Bytes, mask: Bytes, i: nat): (r: Bytes)
    requires |mask| == 4 && i <= |p|
    ensures |r| == |p| - i
    decreases |p| - i
  {
    if i == |p| then [] else [Xor(p[i], mask[i % 4])] + Masked(p, mask, i + 1)
  }

  /** The low k bytes of n, most significant first, as DataView.setUint32 writes four of them. */
  function BigEndian(n: nat, k: nat): (r: Bytes)
    ensures |r| == k
  {
    if k == 0 then [] else BigEndian(n / 256, k - 1) + [n % 256]
  }

  function Number(b: Bytes): nat {
    if b == [] then 0 else 256 * Number(b[..|b| - 1]) + (b[|b| - 1] as int)
  }

  lemma {:induction false} NumberReads(n: nat, k: nat)
    ensures Number(BigEndian(n, k)) < Power(256, k)
    ensures n < Power(256, k) ==> Number(BigEndian(n, k)) == n
  {
    if k > 0 {
      NumberReads(n / 256, k - 1);
      assert BigEndian(n, k)[..k - 1] == BigEndian(n / 256, k - 1);
    }
  }

  const LIMIT: nat := 0x1_0000_0000

  lemma PowersOf256()
    ensures Power(256, 2) == 65536 && Power(256, 4) == LIMIT
  {
    assert Power(256, 2) == 256 * (256 * Power(256, 0));
    assert Power(256, 4) == 256 * (256 * Power(256, 2));
  }

  function LengthBytes(masked: bool, n: nat): Bytes {
    var m := if masked then 128 else 0;
    if n < 126 then [m + n]
    else if n < 65536 then [m + 126] + BigEndian(n, 2)
    else [m + 127] + [0, 0, 0, 0] + BigEndian(n, 4)
  }

  function Encoded(f: Frame): Bytes
    requires f.Valid()
  {
    [(if f.fin then 128 else 0) + f.op] + LengthBytes(f.mask.Some?, |f.payload|) +
    (match f.mask case None => f.payload case Some(m) => m + Masked(f.payload, m, 0))
  }

  /** The head of a final, masked frame with n bytes of payload, as section 5.2 of RFC 6455 has it: the length in the
      second byte, or in the two bytes after 126, or in the eight after 127. */
  ghost predicate HeadIs(s: Bytes, op: nat, n: nat) {
    |s| >= 2 && s[0] == 128 + op &&
    if n <= 125 then |s| == 2 && s[1] == 128 + n
    else if n <= 65535 then |s| == 4 && s[1] == 128 + 126 && 256 * (s[2] as int) + s[3] as int == n
    else
      && |s| == 10 && s[1] == 128 + 127 && s[2] == s[3] == s[4] == s[5] == 0
      && 0x100_0000 * (s[6] as int) + 0x1_0000 * (s[7] as int) + 256 * (s[8] as int) + s[9] as int == n % LIMIT
  }

  /** Every bit of the payload that is set in the mask byte of its place is turned over. */
  ghost predicate MaskedBy(s: Bytes, p: Bytes, mask: Bytes)
    requires |mask| == 4
  {
    |s| == |p| && forall i, k :: 0 <= i < |p| && 0 <= k < 8 ==> (Bit(s[i], k) <==> Bit(p[i], k) != Bit(mask[i % 4], k))
  }

  lemma HeadMeans(op: nat, n: nat)
    requires op < 16
    ensures HeadIs([128 + op] + LengthBytes(true, n), op, n)
  {
    if n >= 65536 {
      FourBytes(n);
      FourDigits(n);
    } else if n >= 126 {
      assert BigEndian(n, 2) == [n / 256, n % 256] by { assert BigEndian(n / 256, 1) == [] + [n / 256 % 256]; }
    }
  }

  lemma FourDigits(n: nat)
    ensures
      0x100_0000 * (n / 256 / 256 / 256 % 256) + 0x1_0000 * (n / 256 / 256 % 256) + 256 * (n / 256 % 256) + n % 256 ==
      n % LIMIT
  {
    var x1, d0 := n / 256, n % 256;
    var x2, d1 := x1 / 256, x1 % 256;
    var x3, d2 := x2 / 256, x2 % 256;
    var x4, d3 := x3 / 256, x3 % 256;
    assert n == 256 * x1 + d0 && x1 == 256 * x2 + d1 && x2 == 256 * x3 + d2 && x3 == 256 * x4 + d3;
    LowPart(x4, 0x100_0000 * d3 + 0x1_0000 * d2 + 256 * d1 + d0);
  }

  lemma LowPart(q: nat, m: nat)
    requires m < LIMIT
    ensures (LIMIT * q + m) % LIMIT == m
  {
  }

  lemma PayloadMeans(p: Bytes, mask: Bytes)
    requires |mask| == 4
    ensures MaskedBy(Masked(p, mask, 0), p, mask)
  {
    hide Xor, Masked, Bit;
    var s := Masked(p, mask, 0);
    forall i, k | 0 <= i < |p| && 0 <= k < 8 ensures Bit(s[i], k) <==> Bit(p[i], k) != Bit(mask[i % 4], k) {
      MaskedAt(p, mask, 0, i);
      XorMeans(p[i], mask[i % 4], k);
    }
  }

  /** frame: what the page sends, always whole and masked. */
  method WriteFrame(op: nat, p: Bytes, mask: Bytes) returns (out: array<Byte>)
    requires op < 16 && |mask| == 4
    ensures fresh(out) && out[..] == Encoded(Frame(true, op, Some(mask), p))
    ensures
      var head := out.Length - 4 - |p|;
      head >= 0 && HeadIs(out[..head], op, |p|) && out[head..head + 4] == mask && MaskedBy(out[head + 4..], p, mask)
  {
    hide LengthBytes, BigEndian, HeadIs, MaskedBy, Masked;
    var n := |p|;
    HeadLength(n);
    var head := if n < 126 then 2 else if n < 65536 then 4 else 10;
    out := new Byte[head + 4 + n](_ => 0);
    WriteHead(out, op, n);
    WriteMasked(out, head, mask, p);
    Assoc([128 + op] + LengthBytes(true, n), mask, Masked(p, mask, 0));
    HeadMeans(op, n);
    PayloadMeans(p, mask);
    ThreeParts([128 + op] + LengthBytes(true, n), mask, Masked(p, mask, 0));
  }

  lemma ThreeParts(a: Bytes, b: Bytes, c: Bytes)
    ensures var s := a + (b + c); s[..|a|] == a && s[|a|..|a| + |b|] == b && s[|a| + |b|..] == c
  {
  }

  lemma HeadLength(n: nat)
    ensures |LengthBytes(true, n)| + 1 == if n < 126 then 2 else if n < 65536 then 4 else 10
  {
  }

  /** The frame's head: the final bit and the opcode, and the length in one of its three forms. */
  method WriteHead(out: array<Byte>, op: nat, n: nat)
    requires op < 16 && out.Length >= 1 + |LengthBytes(true, n)| && forall i :: 0 <= i < out.Length ==> out[i] == 0
    modifies out
    ensures out[..1 + |LengthBytes(true, n)|] == [128 + op] + LengthBytes(true, n)
  {
    out[0] := 128 + op;
    if n < 126 {
      out[1] := 128 + n;
    } else if n < 65536 {
      out[1], out[2], out[3] := 128 + 126, n / 256, n % 256;
      assert BigEndian(n, 2) == [n / 256, n % 256] by { assert BigEndian(n / 256, 1) == [] + [n / 256 % 256]; }
    } else {
      out[1] := 128 + 127;
      out[6], out[7], out[8], out[9] := n / 256 / 256 / 256 % 256, n / 256 / 256 % 256, n / 256 % 256, n % 256;
      FourBytes(n);
    }
  }

  lemma FourBytes(n: nat)
    ensures BigEndian(n, 4) == [n / 256 / 256 / 256 % 256, n / 256 / 256 % 256, n / 256 % 256, n % 256]
  {
    assert BigEndian(n / 256 / 256, 2) == BigEndian(n / 256 / 256 / 256, 1) + [n / 256 / 256 % 256];
    assert BigEndian(n / 256 / 256 / 256, 1) == [] + [n / 256 / 256 / 256 % 256];
  }

  /** The mask and the masked payload, after the head. */
  method WriteMasked(out: array<Byte>, head: nat, mask: Bytes, p: Bytes)
    requires |mask| == 4 && out.Length == head + 4 + |p|
    modifies out
    ensures out[..] == old(out[..head]) + (mask + Masked(p, mask, 0))
  {
    hide Masked, Xor;
    out[head], out[head + 1], out[head + 2], out[head + 3] := mask[0], mask[1], mask[2], mask[3];
    ghost var front := old(out[..head]);
    var i := 0;
    while i < |p|
      invariant 0 <= i <= |p|
      invariant out[..head] == front && out[head..head + 4] == mask
      invariant forall k :: 0 <= k < i ==> out[head + 4 + k] == Xor(p[k], mask[k % 4])
    {
      out[head + 4 + i] := Xor(p[i], mask[i % 4]);
      i := i + 1;
    }
    MaskedIs(out[..], head, front, mask, p);
  }

  lemma MaskedIs(s: Bytes, head: nat, front: Bytes, mask: Bytes, p: Bytes)
    requires |mask| == 4 && |s| == head + 4 + |p| && s[..head] == front && s[head..head + 4] == mask
    requires forall k :: 0 <= k < |p| ==> s[head + 4 + k] == Xor(p[k], mask[k % 4])
    ensures s == front + (mask + Masked(p, mask, 0))
  {
    hide Xor, Masked;
    var tail := s[head + 4..];
    forall k | 0 <= k < |p| ensures tail[k] == Masked(p, mask, 0)[k] {
      assert tail[k] == s[head + 4 + k];
      MaskedAt(p, mask, 0, k);
    }
    assert tail == Masked(p, mask, 0);
    assert s == s[..head] + (s[head..head + 4] + s[head + 4..]);
  }

  // ---- reading one frame ----

  /** The payload length and where it ends, from a header at the start of b. Of a 64-bit length only the low
      half is read. */
  function Length(b: Bytes): (r: Option<(nat, nat)>)
    ensures r.Some? ==> 2 <= r.value.1 <= |b|
  {
    if |b| < 2 then None
    else
      var n := b[1] as int % 128;
      if n == 126 then (if |b| < 4 then None else Some((Number(b[2..4]), 4)))
      else if n == 127 then (if |b| < 10 then None else Some((Number(b[6..10]), 10)))
      else Some((n, 2))
  }

  /** The first frame of b and what follows it, once all of it is there. */
  function ReadFrame(b: Bytes): (r: Option<(Frame, Bytes)>)
    ensures r.Some? ==> |r.value.1| < |b| && r.value.0.Valid()
  {
    match Length(b)
    case None => None
    case Some((n, off)) =>
      var masked := b[1] >= 128;
      if |b| < off + (if masked then 4 else 0) + n then None
      else
        var fin, op := b[0] >= 128, b[0] % 16;
        if masked then
          var mask := b[off..off + 4];
          Some((Frame(fin, op, Some(mask), Masked(b[off + 4..off + 4 + n], mask, 0)), b[off + 4 + n..]))
        else Some((Frame(fin, op, None, b[off..off + n]), b[off + n..]))
  }

  lemma {:induction false} MaskedAt(p: Bytes, mask: Bytes, i: nat, k: nat)
    requires |mask| == 4 && i + k < |p|
    ensures Masked(p, mask, i)[k] == Xor(p[i + k], mask[(i + k) % 4])
    decreases k
  {
    if k > 0 {
      MaskedAt(p, mask, i + 1, k - 1);
    }
  }

  lemma MaskTwice(p: Bytes, mask: Bytes)
    requires |mask| == 4
    ensures Masked(Masked(p, mask, 0), mask, 0) == p
  {
    var q := Masked(p, mask, 0);
    forall k | 0 <= k < |p|
      ensures Masked(q, mask, 0)[k] == p[k]
    {
      MaskedAt(p, mask, 0, k);
      MaskedAt(q, mask, 0, k);
      XorTwice(p[k], mask[k % 4]);
    }
  }

  lemma LengthReads(first: Byte, masked: bool, n: nat, rest: Bytes)
    ensures var b := [first] + LengthBytes(masked, n) + rest;
      && Length(b) == Some((if n < 65536 then n else Number(BigEndian(n, 4)), 1 + |LengthBytes(masked, n)|))
      && (b[1] >= 128 <==> masked)
  {
    hide Number, BigEndian;
    var b := [first] + LengthBytes(masked, n) + rest;
    if n >= 65536 {
      assert b[6..10] == BigEndian(n, 4);
    } else if n >= 126 {
      NumberReads(n, 2);
      PowersOf256();
      assert b[2..4] == BigEndian(n, 2);
    }
  }

  /** A header's length is read back exactly for payloads of fewer than 2^32 bytes. */
  lemma LengthIsRead(masked: bool, n: nat, first: Byte, rest: Bytes)
    ensures Length([first] + LengthBytes(masked, n) + rest).Some?
    ensures Length([first] + LengthBytes(masked, n) + rest).value.0 == n <==> n < LIMIT
  {
    LengthReads(first, masked, n, rest);
    NumberReads(n, 4);
    PowersOf256();
  }

  /** Reading undoes writing for every payload of fewer than 2^32 bytes. */
  lemma ReadsWhatWasWritten(f: Frame, rest: Bytes)
    requires f.Valid() && |f.payload| < LIMIT
    ensures ReadFrame(Encoded(f) + rest) == Some((f, rest))
  {
    hide LengthBytes, Length;
    var first := (if f.fin then 128 else 0) + f.op;
    var head := [first] + LengthBytes(f.mask.Some?, |f.payload|);
    var body := match f.mask case None => f.payload case Some(m) => m + Masked(f.payload, m, 0);
    Assoc(head, body, rest);
    LengthReads(first, f.mask.Some?, |f.payload|, body + rest);
    LengthIsRead(f.mask.Some?, |f.payload|, first, body + rest);
    BodyReads(f, head, rest);
  }

  lemma BodyReads(f: Frame, head: Bytes, rest: Bytes)
    requires f.Valid() && |head| >= 2 && head[0] == (if f.fin then 128 else 0) + f.op
      && (head[1] >= 128 <==> f.mask.Some?)
    requires var body := match f.mask case None => f.payload case Some(m) => m + Masked(f.payload, m, 0);
      Length(head + (body + rest)) == Some((|f.payload|, |head|))
    ensures var body := match f.mask case None => f.payload case Some(m) => m + Masked(f.payload, m, 0);
      ReadFrame(head + (body + rest)) == Some((f, rest))
  {
    hide Length, Masked;
    if f.mask.Some? {
      var m := f.mask.value;
      var x := Masked(f.payload, m, 0);
      Assoc(m, x, rest);
      Middle(head, m, x + rest);
      Assoc(head, m, x + rest);
      Middle(head + m, x, rest);
      MaskTwice(f.payload, m);
    } else {
      Middle(head, f.payload, rest);
    }
  }

  lemma Middle(a: Bytes, x: Bytes, c: Bytes)
    ensures (a + (x + c))[|a|..|a| + |x|] == x && (a + (x + c))[|a| + |x|..] == c
    ensures |a| >= 2 ==> (a + (x + c))[0] == a[0] && (a + (x + c))[1] == a[1]
  {
  }

  // ---- reading messages ----

  datatype Reader = Reader(parts: seq<Bytes>, partOp: nat, finished: bool, closedSent: bool)

  /** What comes of the frames read: a message for the page, a pong or a close frame sent back, and the end. */
  datatype Event = Message(op: nat, data: Bytes) | Pong(data: Bytes) | CloseReply(data: Bytes) | Closed(code: nat)

  function Concat(parts: seq<Bytes>): Bytes {
    if parts == [] then [] else parts[0] + Concat(parts[1..])
  }

  /** One frame. */
  function Handle(r: Reader, f: Frame): (Reader, seq<Event>) {
    var p := f.payload;
    if f.op == OP_CLOSE then
      var code := if |p| >= 2 then 256 * (p[0] as int) + p[1] as int else 1005;
      var reply := if r.closedSent then [] else [CloseReply(if |p| >= 2 then p[..2] else p)];
      (r.(finished := true, closedSent := true), reply + [Closed(code)])
    else if f.op == OP_PING then (r, [Pong(p)])
    else if f.op == OP_PONG then (r, [])
    else if f.op == OP_CONTINUATION then
      var parts := r.parts + [p];
      if f.fin then (r.(parts := []), [Message(r.partOp, Concat(parts))]) else (r.(parts := parts), [])
    else if f.fin then (r, [Message(f.op, p)])
    else (r.(parts := [p], partOp := f.op), [])
  }

  /** drain: every whole frame of b, until the socket is finished; and what is left. */
  function Drain(r: Reader, b: Bytes): (Reader, seq<Event>, Bytes)
    decreases |b|
  {
    if r.finished then (r, [], b)
    else
      match ReadFrame(b)
      case None => (r, [], b)
      case Some((f, rest)) =>
        var (r1, es) := Handle(r, f);
        var (r2, more, left) := Drain(r1, rest);
        (r2, es + more, left)
  }

  /** The socket's reading end. */
  class Socket {
    var buf: Bytes
    var r: Reader
    var events: seq<Event>

    constructor ()
      ensures buf == [] && events == [] && r == Reader([], 0, false, false)
    {
      buf, r, events := [], Reader([], 0, false, false), [];
    }

    /** Bytes that arrive are appended, and the whole frames among them handled. */
    method Receive(bytes: Bytes)
      modifies this
      ensures var (r', es, left) := Drain(old(r), old(buf) + bytes);
        r == r' && buf == left && events == old(events) + es
    {
      buf := buf + bytes;
      ghost var r0, b0, e0 := r, buf, events;
      assert e0 + Drain(r0, b0).1 == events + Drain(r, buf).1;
      while !r.finished
        invariant Drain(r, buf).0 == Drain(r0, b0).0 && Drain(r, buf).2 == Drain(r0, b0).2
        invariant events + Drain(r, buf).1 == e0 + Drain(r0, b0).1
        decreases |buf|
      {
        var next := ReadFrame(buf);
        if next.None? {
          break;
        }
        var (f, rest) := next.value;
        var (r1, es) := Handle(r, f);
        Assoc(events, es, Drain(r1, rest).1);
        r, buf, events := r1, rest, events + es;
      }
      assert events + [] == events;
    }
  }

  // ---- however the bytes are split ----

  /** A whole frame stays the first frame when more bytes follow. */
  lemma FrameStays(b: Bytes, more: Bytes)
    requires ReadFrame(b).Some?
    ensures ReadFrame(b + more) == Some((ReadFrame(b).value.0, ReadFrame(b).value.1 + more))
  {
    hide Number, Masked;
    var c := b + more;
    LengthStays(b, more);
    var (n, off) := Length(b).value;
    var from := if b[1] >= 128 then off + 4 else off;
    assert c[0] == b[0] && c[1] == b[1];
    SameSlice(b, more, off, from);
    SameSlice(b, more, from, from + n);
  }

  lemma SameSlice(b: Bytes, more: Bytes, i: nat, j: nat)
    requires i <= j <= |b|
    ensures (b + more)[i..j] == b[i..j] && (b + more)[j..] == b[j..] + more
  {
  }

  lemma LengthStays(b: Bytes, more: Bytes)
    requires Length(b).Some?
    ensures Length(b + more) == Length(b)
  {
    hide Number;
    var c := b + more;
    if |b| >= 4 { assert c[2..4] == b[2..4]; }
    if |b| >= 10 { assert c[6..10] == b[6..10]; }
  }

  /** Draining what is there and the rest later is draining all at once. */
  lemma {:induction false} DrainSplits(r: Reader, a: Bytes, b: Bytes)
    ensures var (r1, es, left) := Drain(r, a);
      var (r2, more, last) := Drain(r1, left + b);
      && Drain(r, a + b).0 == r2 && Drain(r, a + b).1 == es + more && Drain(r, a + b).2 == last
    decreases |a|
  {
    hide ReadFrame, Handle;
    if r.finished || ReadFrame(a).None? {
      assert [] + Drain(r, a + b).1 == Drain(r, a + b).1;
    } else {
      var (f, rest) := ReadFrame(a).value;
      FrameStays(a, b);
      var (r1, es) := Handle(r, f);
      FrameShrinks(a);
      DrainSplits(r1, rest, b);
      var (r2, mid, left) := Drain(r1, rest);
      Assoc(es, mid, Drain(r2, left + b).1);
    }
  }

  lemma FrameShrinks(b: Bytes)
    ensures ReadFrame(b).Some? ==> |ReadFrame(b).value.1| < |b|
  {
  }

  /** Bytes received in chunks. */
  function Received(r: Reader, held: Bytes, chunks: seq<Bytes>): (Reader, seq<Event>, Bytes)
    decreases |chunks|
  {
    if chunks == [] then (r, [], held)
    else
      var (r1, es, left) := Drain(r, held + chunks[0]);
      var (r2, more, last) := Received(r1, left, chunks[1..]);
      (r2, es + more, last)
  }

  lemma DrainedTwice(r: Reader, b: Bytes)
    ensures var (r1, es, left) := Drain(r, b); Drain(r1, left) == (r1, [], left)
    decreases |b|
  {
    hide Handle;
    if !r.finished && ReadFrame(b).Some? {
      DrainedTwice(Handle(r, ReadFrame(b).value.0).0, ReadFrame(b).value.1);
    }
  }

  /** The messages and replies are the same however the bytes are chunked. */
  lemma {:induction false} AnyChunks(r: Reader, held: Bytes, chunks: seq<Bytes>)
    requires Drain(r, held) == (r, [], held)
    ensures Received(r, held, chunks) == Drain(r, held + Concat(chunks))
    decreases |chunks|
  {
    hide Drain;
    if chunks == [] {
      assert held + [] == held;
    } else {
      var b, rest := held + chunks[0], Concat(chunks[1..]);
      Assoc(held, chunks[0], rest);
      var (r1, es, left) := Drain(r, b);
      DrainedTwice(r, b);
      DrainSplits(r, b, rest);
      AnyChunks(r1, left, chunks[1..]);
    }
  }

  // ---- fragments and control frames ----

  function EncodedAll(fs: seq<Frame>): Bytes
    requires forall f :: f in fs ==> f.Valid()
  {
    if fs == [] then [] else Encoded(fs[0]) + EncodedAll(fs[1..])
  }

  function HandleAll(r: Reader, fs: seq<Frame>): (Reader, seq<Event>)
    decreases |fs|
  {
    if fs == [] then (r, [])
    else
      var (r1, es) := Handle(r, fs[0]);
      var (r2, more) := HandleAll(r1, fs[1..]);
      (r2, es + more)
  }

  ghost predicate Sendable(fs: seq<Frame>) {
    forall f :: f in fs ==> f.Valid() && |f.payload| < LIMIT && f.op != OP_CLOSE
  }

  lemma HandleGoesOn(r: Reader, f: Frame)
    requires f.op != OP_CLOSE
    ensures Handle(r, f).0.finished == r.finished && Handle(r, f).0.closedSent == r.closedSent
  {
  }

  /** Frames written one after another are read and handled one after another. */
  lemma {:induction false} DrainsFrames(r: Reader, fs: seq<Frame>)
    requires Sendable(fs) && !r.finished
    ensures Drain(r, EncodedAll(fs)) == (HandleAll(r, fs).0, HandleAll(r, fs).1, [])
    ensures !HandleAll(r, fs).0.finished
    decreases |fs|
  {
    hide Encoded, Handle, ReadFrame;
    if fs == [] {
      NoFrame();
    } else {
      assert fs[0] in fs && forall f :: f in fs[1..] ==> f in fs;
      ReadsWhatWasWritten(fs[0], EncodedAll(fs[1..]));
      HandleGoesOn(r, fs[0]);
      FrameShrinks(EncodedAll(fs));
      DrainsFrames(Handle(r, fs[0]).0, fs[1..]);
    }
  }

  /** The frames before a close frame are handled, it is answered once with the code it carries, and what comes after it
      is not read. */
  lemma {:induction false} CloseEnds(r: Reader, fs: seq<Frame>, close: Frame, rest: Bytes)
    requires Sendable(fs) && !r.finished && close.Valid() && close.op == OP_CLOSE && |close.payload| < LIMIT
    ensures
      var p := close.payload;
      var (r1, es) := HandleAll(r, fs);
      var code: nat := if |p| >= 2 then 256 * (p[0] as int) + p[1] as int else 1005;
      var reply := if r.closedSent then [] else [CloseReply(p[..if |p| < 2 then |p| else 2])];
      Drain(r, EncodedAll(fs) + (Encoded(close) + rest)) ==
        (r1.(finished := true, closedSent := true), es + (reply + [Closed(code)]), rest)
    decreases |fs|
  {
    hide Encoded, ReadFrame;
    if fs == [] {
      assert [] + (Encoded(close) + rest) == Encoded(close) + rest;
      CloseFrameEnds(r, close, rest);
    } else {
      hide Handle;
      var tail := EncodedAll(fs[1..]) + (Encoded(close) + rest);
      assert fs[0] in fs && forall f :: f in fs[1..] ==> f in fs;
      Assoc(Encoded(fs[0]), EncodedAll(fs[1..]), Encoded(close) + rest);
      ReadsWhatWasWritten(fs[0], tail);
      HandleGoesOn(r, fs[0]);
      FrameShrinks(Encoded(fs[0]) + tail);
      CloseEnds(Handle(r, fs[0]).0, fs[1..], close, rest);
      var (r1, more) := HandleAll(Handle(r, fs[0]).0, fs[1..]);
      Assoc(Handle(r, fs[0]).1, more, Drain(Handle(r, fs[0]).0, tail).1[|more|..]);
    }
  }

  lemma CloseFrameEnds(r: Reader, close: Frame, rest: Bytes)
    requires !r.finished && close.Valid() && close.op == OP_CLOSE && |close.payload| < LIMIT
    ensures
      var p := close.payload;
      var code: nat := if |p| >= 2 then 256 * (p[0] as int) + p[1] as int else 1005;
      var reply := if r.closedSent then [] else [CloseReply(p[..if |p| < 2 then |p| else 2])];
      Drain(r, Encoded(close) + rest) ==
        (r.(finished := true, closedSent := true), [] + (reply + [Closed(code)]), rest)
  {
    hide Encoded, ReadFrame;
    ReadsWhatWasWritten(close, rest);
    FrameShrinks(Encoded(close) + rest);
    var (r1, es) := Handle(r, close);
    assert Drain(r1, rest) == (r1, [], rest);
    assert es + [] == es && [] + es == es && close.payload[..|close.payload|] == close.payload;
  }

  lemma NoFrame()
    ensures ReadFrame([]).None?
  {
  }

  predicate IsControl(f: Frame) {
    f.op == OP_PING || f.op == OP_PONG
  }

  /** The frames that carry messages. */
  function DataFrames(fs: seq<Frame>): seq<Frame> {
    if fs == [] then [] else (if IsControl(fs[0]) then [] else [fs[0]]) + DataFrames(fs[1..])
  }

  /** The payloads of the pings. */
  function Pings(fs: seq<Frame>): seq<Bytes> {
    if fs == [] then [] else (if fs[0].op == OP_PING then [fs[0].payload] else []) + Pings(fs[1..])
  }

  function Messages(es: seq<Event>): seq<Event> {
    if es == [] then [] else (if es[0].Message? then [es[0]] else []) + Messages(es[1..])
  }

  function Pongs(es: seq<Event>): seq<Bytes> {
    if es == [] then [] else (if es[0].Pong? then [es[0].data] else []) + Pongs(es[1..])
  }

  lemma {:induction false} EventsAppend(a: seq<Event>, b: seq<Event>)
    ensures Messages(a + b) == Messages(a) + Messages(b)
    ensures Pongs(a + b) == Pongs(a) + Pongs(b)
    decreases |a|
  {
    if a == [] {
      assert a + b == b && [] + Messages(b) == Messages(b) && [] + Pongs(b) == Pongs(b);
    } else {
      assert (a + b)[0] == a[0] && (a + b)[1..] == a[1..] + b;
      EventsAppend(a[1..], b);
      Assoc(if a[0].Message? then [a[0]] else [], Messages(a[1..]), Messages(b));
      Assoc(if a[0].Pong? then [a[0].data] else [], Pongs(a[1..]), Pongs(b));
    }
  }

  /** Control frames between others change no message, and each ping is answered, in order. */
  lemma {:induction false} ControlsAside(r: Reader, fs: seq<Frame>)
    requires Sendable(fs)
    ensures HandleAll(r, fs).0 == HandleAll(r, DataFrames(fs)).0
    ensures Messages(HandleAll(r, fs).1) == Messages(HandleAll(r, DataFrames(fs)).1)
    ensures Pongs(HandleAll(r, fs).1) == Pings(fs)
    decreases |fs|
  {
    if fs != [] {
      assert fs[0] in fs && forall f :: f in fs[1..] ==> f in fs;
      var f := fs[0];
      var (r1, es) := Handle(r, f);
      ControlsAside(r1, fs[1..]);
      HandledOne(r, f);
      EventsAppend(es, HandleAll(r1, fs[1..]).1);
      if IsControl(f) {
        assert [] + DataFrames(fs[1..]) == DataFrames(fs[1..]);
        assert [] + Messages(HandleAll(r1, fs[1..]).1) == Messages(HandleAll(r1, fs[1..]).1);
      } else {
        var ds := [f] + DataFrames(fs[1..]);
        assert ds[0] == f && ds[1..] == DataFrames(fs[1..]);
        EventsAppend(es, HandleAll(r1, DataFrames(fs[1..])).1);
      }
    }
  }

  lemma HandledOne(r: Reader, f: Frame)
    requires f.op != OP_CLOSE
    ensures Pongs(Handle(r, f).1) == if f.op == OP_PING then [f.payload] else []
    ensures IsControl(f) ==> Handle(r, f).0 == r && Messages(Handle(r, f).1) == []
    ensures !IsControl(f) ==> Messages(Handle(r, f).1) == Handle(r, f).1
  {
    var es := Handle(r, f).1;
    if es != [] { assert es == [es[0]] && es[1..] == []; }
  }

  /** A message as it is sent: its opcode, and the parts it is sent in. */
  datatype Sent = Sent(op: nat, parts: seq<Bytes>)

  /** fs are the data frames of a message with its parts from k on still to come. */
  ghost predicate Fragments(m: Sent, k: nat, fs: seq<Frame>)
    requires k <= |m.parts|
  {
    |fs| == |m.parts| - k && forall i :: 0 <= i < |fs| ==>
      fs[i].payload == m.parts[k + i] && fs[i].op == (if k + i == 0 then m.op else OP_CONTINUATION)
      && (fs[i].fin <==> k + i == |m.parts| - 1)
  }

  ghost predicate MessageValid(m: Sent) {
    m.parts != [] && m.op != OP_CONTINUATION && m.op < OP_CLOSE
  }

  lemma {:induction false} RestOfMessage(r: Reader, m: Sent, k: nat, fs: seq<Frame>)
    requires MessageValid(m) && 0 < k < |m.parts| && Fragments(m, k, fs) && r.parts == m.parts[..k] && r.partOp == m.op
    ensures HandleAll(r, fs) == (r.(parts := []), [Message(m.op, Concat(m.parts))])
    decreases |fs|
  {
    var r1 := Handle(r, fs[0]).0;
    assert r.parts + [fs[0].payload] == m.parts[..k + 1];
    if k + 1 == |m.parts| {
      assert m.parts[..k + 1] == m.parts && fs[1..] == [];
      assert [Message(m.op, Concat(m.parts))] + [] == [Message(m.op, Concat(m.parts))];
    } else {
      RestOfMessage(r1, m, k + 1, fs[1..]);
      assert [] + HandleAll(r1, fs[1..]).1 == HandleAll(r1, fs[1..]).1;
    }
  }

  /** A message is delivered whole, once, however it is fragmented. */
  lemma OneMessage(r: Reader, m: Sent, fs: seq<Frame>)
    requires MessageValid(m) && Fragments(m, 0, fs) && r.parts == []
    ensures HandleAll(r, fs).0.parts == [] && HandleAll(r, fs).0.finished == r.finished
    ensures HandleAll(r, fs).1 == [Message(m.op, Concat(m.parts))]
  {
    var (r1, es) := Handle(r, fs[0]);
    if |m.parts| == 1 {
      assert fs[1..] == [] && es + [] == es;
      assert m.parts[1..] == [] && m.parts[0] + [] == m.parts[0];
    } else {
      assert [fs[0].payload] == m.parts[..1];
      RestOfMessage(r1, m, 1, fs[1..]);
      assert [] + HandleAll(r1, fs[1..]).1 == HandleAll(r1, fs[1..]).1;
    }
  }

  /** fs are the data frames of the messages, one after another. */
  ghost predicate FramesOf(ms: seq<Sent>, fs: seq<Frame>)
    decreases |ms|
  {
    if ms == [] then fs == []
    else
      MessageValid(ms[0]) && |ms[0].parts| <= |fs| && Fragments(ms[0], 0, fs[..|ms[0].parts|]) &&
      FramesOf(ms[1..], fs[|ms[0].parts|..])
  }

  function Whole(ms: seq<Sent>): seq<Event> {
    if ms == [] then [] else [Message(ms[0].op, Concat(ms[0].parts))] + Whole(ms[1..])
  }

  lemma {:induction false} HandleAppend(r: Reader, a: seq<Frame>, b: seq<Frame>)
    ensures HandleAll(r, a + b).0 == HandleAll(HandleAll(r, a).0, b).0
    ensures HandleAll(r, a + b).1 == HandleAll(r, a).1 + HandleAll(HandleAll(r, a).0, b).1
    decreases |a|
  {
    hide Handle;
    if a == [] {
      assert a + b == b && [] + HandleAll(r, b).1 == HandleAll(r, b).1;
    } else {
      assert (a + b)[0] == a[0] && (a + b)[1..] == a[1..] + b;
      var (r1, es) := Handle(r, a[0]);
      HandleAppend(r1, a[1..], b);
      Assoc(es, HandleAll(r1, a[1..]).1, HandleAll(HandleAll(r1, a[1..]).0, b).1);
    }
  }

  lemma {:induction false} AllMessages(r: Reader, ms: seq<Sent>, fs: seq<Frame>)
    requires FramesOf(ms, fs) && r.parts == []
    ensures HandleAll(r, fs).1 == Whole(ms)
    decreases |ms|
  {
    if ms != [] {
      var n := |ms[0].parts|;
      OneMessage(r, ms[0], fs[..n]);
      AllMessages(HandleAll(r, fs[..n]).0, ms[1..], fs[n..]);
      HandleAppend(r, fs[..n], fs[n..]);
      assert fs == fs[..n] + fs[n..];
    }
  }

  lemma {:induction false} WholeAreMessages(ms: seq<Sent>)
    ensures Messages(Whole(ms)) == Whole(ms)
    decreases |ms|
  {
    if ms != [] {
      WholeAreMessages(ms[1..]);
    }
  }

  /** However messages are fragmented, control frames put between the fragments, and the bytes chunked, the
      page gets the messages whole and in order, and every ping is answered in order. */
  lemma DeliversMessages(ms: seq<Sent>, fs: seq<Frame>, chunks: seq<Bytes>)
    requires Sendable(fs) && FramesOf(ms, DataFrames(fs)) && Concat(chunks) == EncodedAll(fs)
    ensures var (r, es, left) := Received(Reader([], 0, false, false), [], chunks);
      Messages(es) == Whole(ms) && Pongs(es) == Pings(fs) && left == []
  {
    var r := Reader([], 0, false, false);
    NoFrame();
    AnyChunks(r, [], chunks);
    assert [] + Concat(chunks) == Concat(chunks);
    DrainsFrames(r, fs);
    ControlsAside(r, fs);
    AllMessages(r, ms, DataFrames(fs));
    WholeAreMessages(ms);
  }
}
