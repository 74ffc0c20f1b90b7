/** Pictures sent in pieces with kitty's graphics protocol: the program that sends them
    (progdemo/progdemo.go) and the page that puts them together (web/images.go). */
module Kitty {
  import opened Wrappers
  import Terminal

  type Byte = b: int | 0 <= b < 256

  type Controls = map<string, string>

  // ---- base64 (section 4 of RFC 4648) ----

  function Letter(i: nat): char
    requires i < 64
  {
    if i < 26 then 'A' + i as char
    else if i < 52 then 'a' + (i - 26) as char
    else if i < 62 then '0' + (i - 52) as char
    else if i == 62 then '+' else '/'
  }

  function Index(c: char): (r: Option<nat>)
    ensures r.Some? ==> r.value < 64
  {
    if 'A' <= c <= 'Z' then Some((c - 'A') as nat)
    else if 'a' <= c <= 'z' then Some((c - 'a') as nat + 26)
    else if '0' <= c <= '9' then Some((c - '0') as nat + 52)
    else if c == '+' then Some(62)
    else if c == '/' then Some(63)
    else None
  }

  lemma LetterIndex(i: nat)
    requires i < 64
    ensures Index(Letter(i)) == Some(i) && Letter(i) != '=' && Letter(i) != '\n' && Letter(i) != '\r'
  {
  }

  function Encode(b: seq<Byte>): string {
    if b == [] then []
    else if |b| == 1 then [Letter(b[0] / 4), Letter(b[0] % 4 * 16), '=', '=']
    else if |b| == 2 then [Letter(b[0] / 4), Letter(b[0] % 4 * 16 + b[1] / 16), Letter(b[1] % 16 * 4), '=']
    else Quantum(b[0], b[1], b[2]) + Encode(b[3..])
  }

  function Quantum(x: Byte, y: Byte, z: Byte): string {
    [Letter(x / 4), Letter(x % 4 * 16 + y / 16), Letter(y % 16 * 4 + z / 64), Letter(z % 64)]
  }

  /** The decoder passes over line breaks. */
  function NoBreaks(s: string): string {
    if s == [] then []
    else if s[0] == '\n' || s[0] == '\r' then NoBreaks(s[1..])
    else [s[0]] + NoBreaks(s[1..])
  }

  /** The bytes that the sixes of bits i, j, k and l make. */
  function ByteOne(i: nat, j: nat): Byte
    requires i < 64 && j < 64
  {
    i * 4 + j / 16
  }

  function ByteTwo(j: nat, k: nat): Byte
    requires j < 64 && k < 64
  {
    j % 16 * 16 + k / 4
  }

  function ByteThree(k: nat, l: nat): Byte
    requires k < 64 && l < 64
  {
    k % 4 * 64 + l
  }

  /** Groups of four letters, the last one perhaps padded; nothing when it is not that. */
  function Groups(s: string): Option<seq<Byte>> {
    if s == [] then Some([])
    else if |s| < 4 || Index(s[0]).None? || Index(s[1]).None? then None
    else
      var i, j := Index(s[0]).value, Index(s[1]).value;
      var x := ByteOne(i, j);
      if s[2] == '=' then if s[3] == '=' && |s| == 4 then Some([x]) else None
      else if Index(s[2]).None? then None
      else
        var k := Index(s[2]).value;
        var y := ByteTwo(j, k);
        if s[3] == '=' then if |s| == 4 then Some([x, y]) else None
        else if Index(s[3]).None? then None
        else
          var rest := Groups(s[4..]);
          if rest.None? then None else Some([x, y, ByteThree(k, Index(s[3]).value)] + rest.value)
  }

  function Decode(s: string): Option<seq<Byte>> {
    Groups(NoBreaks(s))
  }

  /** A line break anywhere changes nothing. */
  lemma {:induction false} BreaksDoNotMatter(s: string, t: string)
    ensures Decode(s + ['\n'] + t) == Decode(s + t) && Decode(s + ['\r'] + t) == Decode(s + t)
  {
    BreakGoes(s, t, '\n');
    BreakGoes(s, t, '\r');
  }

  lemma {:induction false} BreakGoes(s: string, t: string, c: char)
    requires c == '\n' || c == '\r'
    ensures NoBreaks(s + [c] + t) == NoBreaks(s + t)
    decreases |s|
  {
    if s == [] {
      assert (s + [c] + t)[1..] == t && s + t == t;
    } else {
      assert (s + [c] + t)[1..] == s[1..] + [c] + t && (s + t)[1..] == s[1..] + t;
      BreakGoes(s[1..], t, c);
    }
  }

  predicate NoBreak(s: string) {
    forall i :: 0 <= i < |s| ==> s[i] != '\n' && s[i] != '\r'
  }

  lemma {:induction false} NoBreaksIs(s: string)
    requires NoBreak(s)
    ensures NoBreaks(s) == s
    decreases |s|
  {
    if s != [] {
      assert NoBreak(s[1..]);
      NoBreaksIs(s[1..]);
    }
  }

  /** Three bytes cut into four sixes of bits and put together again. */
  lemma Sixes(x: Byte, y: Byte, z: Byte)
    ensures x % 4 * 16 + y / 16 < 64 && y % 16 * 4 + z / 64 < 64
    ensures x / 4 * 4 + (x % 4 * 16 + y / 16) / 16 == x
    ensures (x % 4 * 16 + y / 16) % 16 * 16 + (y % 16 * 4 + z / 64) / 4 == y
    ensures (y % 16 * 4 + z / 64) % 4 * 64 + z % 64 == z
  {
  }

  /** Four letters that stand for i, j, k and l make three bytes. */
  lemma FourLetters(q: string, i: nat, j: nat, k: nat, l: nat, rest: string)
    requires i < 64 && j < 64 && k < 64 && l < 64 && |q| == 4 && Groups(rest).Some?
    requires Index(q[0]) == Some(i) && Index(q[1]) == Some(j) && Index(q[2]) == Some(k) && Index(q[3]) == Some(l)
    requires q[2] != '=' && q[3] != '='
    ensures Groups(q + rest) ==
      Some([ByteOne(i, j), ByteTwo(j, k), ByteThree(k, l)] + Groups(rest).value)
  {
    hide Index, ByteOne, ByteTwo, ByteThree;
    var s := q + rest;
    assert s[4..] == rest && s[0] == q[0] && s[1] == q[1] && s[2] == q[2] && s[3] == q[3];
  }

  lemma LettersDecode(i: nat, j: nat, k: nat, l: nat, rest: string)
    requires i < 64 && j < 64 && k < 64 && l < 64 && Groups(rest).Some?
    ensures
      var q := [Letter(i), Letter(j), Letter(k), Letter(l)];
      NoBreak(q) && Groups(q + rest) == Some([ByteOne(i, j), ByteTwo(j, k), ByteThree(k, l)] + Groups(rest).value)
  {
    hide Letter, Index, Groups, ByteOne, ByteTwo, ByteThree;
    LetterIndex(i);
    LetterIndex(j);
    LetterIndex(k);
    LetterIndex(l);
    FourLetters([Letter(i), Letter(j), Letter(k), Letter(l)], i, j, k, l, rest);
  }

  /** The bytes that the sixes of three bytes make are those bytes. */
  lemma SixesMake(x: Byte, y: Byte, z: Byte)
    ensures x / 4 < 64 && x % 4 * 16 + y / 16 < 64 && y % 16 * 4 + z / 64 < 64 && z % 64 < 64
    ensures ByteOne(x / 4, x % 4 * 16 + y / 16) == x
    ensures ByteTwo(x % 4 * 16 + y / 16, y % 16 * 4 + z / 64) == y
    ensures ByteThree(y % 16 * 4 + z / 64, z % 64) == z
  {
    Sixes(x, y, z);
  }

  lemma QuantumDecodes(x: Byte, y: Byte, z: Byte, rest: string)
    requires Groups(rest).Some?
    ensures NoBreak(Quantum(x, y, z))
    ensures Groups(Quantum(x, y, z) + rest) == Some([x, y, z] + Groups(rest).value)
  {
    hide Letter, Index, Groups, ByteOne, ByteTwo, ByteThree, NoBreak;
    SixesMake(x, y, z);
    LettersDecode(x / 4, x % 4 * 16 + y / 16, y % 16 * 4 + z / 64, z % 64, rest);
  }

  lemma LastOne(x: Byte)
    ensures NoBreak(Encode([x])) && Groups(Encode([x])) == Some([x])
  {
    hide Letter, Index;
    Sixes(x, 0, 0);
    LetterIndex(x / 4);
    LetterIndex(x % 4 * 16);
  }

  lemma LastTwo(x: Byte, y: Byte)
    ensures NoBreak(Encode([x, y])) && Groups(Encode([x, y])) == Some([x, y])
  {
    hide Letter, Index;
    Sixes(x, y, 0);
    LetterIndex(x / 4);
    LetterIndex(x % 4 * 16 + y / 16);
    LetterIndex(y % 16 * 4);
  }

  /** Decoding undoes encoding. */
  lemma {:induction false} DecodeUndoesEncode(b: seq<Byte>)
    ensures NoBreak(Encode(b)) && Decode(Encode(b)) == Some(b)
    decreases |b|
  {
    hide Letter, Index, Quantum;
    if |b| == 1 {
      LastOne(b[0]);
      assert b == [b[0]];
    } else if |b| == 2 {
      LastTwo(b[0], b[1]);
      assert b == [b[0], b[1]];
    } else if |b| > 2 {
      DecodeUndoesEncode(b[3..]);
      NoBreaksIs(Encode(b[3..]));
      QuantumDecodes(b[0], b[1], b[2], Encode(b[3..]));
      assert [b[0], b[1], b[2]] + b[3..] == b;
    }
    NoBreaksIs(Encode(b));
  }

  lemma {:induction false} EncodeLength(b: seq<Byte>)
    ensures |Encode(b)| == (|b| + 2) / 3 * 4
    decreases |b|
  {
    hide Letter;
    if |b| > 2 {
      EncodeLength(b[3..]);
      ThreeLess(|b|);
    }
  }

  lemma ThreeLess(n: nat)
    requires n > 2
    ensures (n + 2) / 3 * 4 == (n - 3 + 2) / 3 * 4 + 4
  {
  }

  /** An encoding cut after whole groups is the encodings of the two parts. */
  lemma {:induction false} EncodeSplits(a: seq<Byte>, b: seq<Byte>)
    requires |a| % 3 == 0
    ensures Encode(a + b) == Encode(a) + Encode(b)
    decreases |a|
  {
    if a == [] {
      assert a + b == b;
    } else {
      assert (a + b)[3..] == a[3..] + b;
      EncodeSplits(a[3..], b);
    }
  }

  // ---- the text of one command ----

  /** strings.Cut: what is before the first c, and what is after it if there is one. */
  function Cut(s: string, c: char): (r: (string, Option<string>))
    ensures r.1.Some? ==> |r.1.value| < |s|
  {
    if s == [] then ([], None)
    else if s[0] == c then ([], Some(s[1..]))
    else
      var r := Cut(s[1..], c);
      ([s[0]] + r.0, r.1)
  }

  /** strings.Split at commas. */
  function Fields(s: string): seq<string>
    decreases |s|
  {
    var r := Cut(s, ',');
    if r.1.None? then [r.0] else [r.0] + Fields(r.1.value)
  }

  /** The control keys of fields like "k=v", later ones over earlier. */
  function Read(fields: seq<string>, m: Controls): Controls
    decreases |fields|
  {
    if fields == [] then m
    else
      var kv := Cut(fields[0], '=');
      Read(fields[1..], if kv.1.Some? then m[kv.0 := kv.1.value] else m)
  }

  function Field(kv: (string, string)): string {
    kv.0 + ['='] + kv.1
  }

  function Text(pairs: seq<(string, string)>): string {
    if pairs == [] then []
    else if |pairs| == 1 then Field(pairs[0])
    else Field(pairs[0]) + [','] + Text(pairs[1..])
  }

  function MapOf(pairs: seq<(string, string)>, m: Controls): Controls
    decreases |pairs|
  {
    if pairs == [] then m else MapOf(pairs[1..], m[pairs[0].0 := pairs[0].1])
  }

  predicate Clean(s: string) {
    forall i :: 0 <= i < |s| ==> s[i] != ',' && s[i] != ';' && s[i] != '='
  }

  predicate AllClean(pairs: seq<(string, string)>) {
    forall i :: 0 <= i < |pairs| ==> Clean(pairs[i].0) && Clean(pairs[i].1)
  }

  lemma {:induction false} CutAt(x: string, c: char, y: string)
    requires forall i :: 0 <= i < |x| ==> x[i] != c
    ensures Cut(x + [c] + y, c) == (x, Some(y))
    decreases |x|
  {
    var s := x + [c] + y;
    if x == [] {
      assert s[1..] == y;
    } else {
      assert s[1..] == x[1..] + [c] + y && [x[0]] + x[1..] == x;
      CutAt(x[1..], c, y);
    }
  }

  lemma {:induction false} CutNone(x: string, c: char)
    requires forall i :: 0 <= i < |x| ==> x[i] != c
    ensures Cut(x, c) == (x, None)
    decreases |x|
  {
    if x != [] {
      assert [x[0]] + x[1..] == x;
      CutNone(x[1..], c);
    }
  }

  /** Reading the text of pairs gives the pairs, and there is no semicolon in it. */
  lemma {:induction false} ReadText(pairs: seq<(string, string)>, m: Controls)
    requires pairs != [] && AllClean(pairs)
    ensures Read(Fields(Text(pairs)), m) == MapOf(pairs, m)
    ensures forall i :: 0 <= i < |Text(pairs)| ==> Text(pairs)[i] != ';'
    decreases |pairs|
  {
    var kv := pairs[0];
    CutAt(kv.0, '=', kv.1);
    if |pairs| == 1 {
      CutNone(Field(kv), ',');
      assert [Field(kv)][1..] == [];
      assert pairs[1..] == [];
    } else {
      var rest := Text(pairs[1..]);
      CutAt(Field(kv), ',', rest);
      assert ([Field(kv)] + Fields(rest))[1..] == Fields(rest);
      ReadText(pairs[1..], m[kv.0 := kv.1]);
    }
  }

  // ---- the sender ----

  const PIECE := 4096

  /** The control keys of a picture's first piece. */
  function First(w: nat, h: nat, more: string): Controls {
    map["a" := "T", "f" := "100", "i" := "7337", "c" := Terminal.Itoa(w), "r" := Terminal.Itoa(h),
        "C" := "1", "q" := "2", "m" := more]
  }

  function FirstPairs(w: nat, h: nat, more: string): seq<(string, string)> {
    [("a", "T"), ("f", "100"), ("i", "7337"), ("c", Terminal.Itoa(w)), ("r", Terminal.Itoa(h)),
     ("C", "1"), ("q", "2"), ("m", more)]
  }

  function Body(pairs: seq<(string, string)>, payload: string): string {
    ['G'] + (Text(pairs) + [';'] + payload)
  }

  /** What a picture is sent as: the bytes in pieces of 3072, each encoded by itself, the first with all the
      keys and every one but the last marked as having more to come. */
  function Bodies(w: nat, h: nat, first: bool, data: seq<Byte>): seq<string>
    decreases |data|
  {
    var more := if |data| <= 3072 then "0" else "1";
    if |data| <= 3072 then [Body(Pairs(w, h, first, more), Encode(data))]
    else [Body(Pairs(w, h, first, more), Encode(data[..3072]))] + Bodies(w, h, false, data[3072..])
  }

  lemma CutEncoding(data: seq<Byte>)
    ensures |Encode(data)| <= PIECE <==> |data| <= 3072
    ensures data == [] <==> Encode(data) == []
    ensures |data| > 3072 ==> |Encode(data)| > PIECE && Encode(data)[..PIECE] == Encode(data[..3072])
    ensures |data| > 3072 ==> Encode(data)[PIECE..] == Encode(data[3072..])
  {
    hide Encode;
    EncodeLength(data);
    if |data| > 3072 {
      EncodeSplits(data[..3072], data[3072..]);
      EncodeLength(data[..3072]);
      assert data[..3072] + data[3072..] == data;
    }
  }

  function Pairs(w: nat, h: nat, first: bool, more: string): seq<(string, string)> {
    if first then FirstPairs(w, h, more) else [("m", more)]
  }

  /** What is left to send. */
  function Left(w: nat, h: nat, first: bool, rest: seq<Byte>): seq<string> {
    if rest == [] && !first then [] else Bodies(w, h, first, rest)
  }

  lemma SendsOne(w: nat, h: nat, first: bool, rest: seq<Byte>, n: nat, more: string, one: string, bodies: seq<string>)
    requires rest != [] || first
    requires n == (if |Encode(rest)| < PIECE then |Encode(rest)| else PIECE)
    requires more == (if n < |Encode(rest)| then "1" else "0")
    requires one == Body(Pairs(w, h, first, more), Encode(rest)[..n])
    ensures Encode(rest)[n..] == Encode(Later(rest))
    ensures bodies + Left(w, h, first, rest) == bodies + [one] + Left(w, h, false, Later(rest))
  {
    hide Encode, Body, FirstPairs;
    CutEncoding(rest);
    EncodeNothing();
    assert Encode(rest)[..|Encode(rest)|] == Encode(rest);
    assert Left(w, h, first, rest) == [one] + Left(w, h, false, Later(rest));
    Assoc(bodies, [one], Left(w, h, false, Later(rest)));
  }

  lemma EncodeNothing()
    ensures Encode([]) == []
  {
  }

  function Later(rest: seq<Byte>): seq<Byte> {
    if |rest| <= 3072 then [] else rest[3072..]
  }

  /** kittyPicture: the commands it writes, from one encoding of the whole cut every 4096 letters. */
  method KittyPicture(w: nat, h: nat, data: seq<Byte>) returns (bodies: seq<string>)
    ensures bodies == Bodies(w, h, true, data)
  {
    hide Encode, Body, FirstPairs, Bodies;
    var enc := Encode(data);
    bodies := [];
    var first := true;
    ghost var rest := data;
    CutEncoding(data);
    assert [] + Left(w, h, true, data) == Left(w, h, true, data);
    while |enc| > 0 || first
      invariant enc == Encode(rest)
      invariant enc == [] <==> rest == []
      invariant bodies + Left(w, h, first, rest) == Bodies(w, h, true, data)
      decreases |enc|, first
    {
      var n := if |enc| < PIECE then |enc| else PIECE;
      var more := if n < |enc| then "1" else "0";
      var one := Body(if first then FirstPairs(w, h, more) else [("m", more)], enc[..n]);
      SendsOne(w, h, first, rest, n, more, one, bodies);
      bodies := bodies + [one];
      first := false;
      enc := enc[n..];
      rest := Later(rest);
      CutEncoding(rest);
    }
    assert bodies + [] == bodies;
  }

  // ---- the receiver ----

  /** imageLimit. */
  const LIMIT := 16777216

  /** What the page does with a command: a whole picture is acted on, or the command is refused. */
  datatype Outcome = Picture(controls: Controls, data: seq<Byte>) | BadBase64(controls: Controls)

  /** The transfer under way, if there is one, with what came of it so far; and everything that was done. */
  datatype Images = Images(part: seq<Byte>, partCtl: Option<Controls>, done: seq<Outcome>)

  function Get(m: Controls, k: string): string {
    if k in m then m[k] else ""
  }

  /** The keys of a command: in a transfer those of its first piece, with m and perhaps q from this one. */
  function Keys(held: Option<Controls>, own: Controls): Controls {
    if held.None? then own
    else
      var c := if "q" in own then held.value["q" := own["q"]] else held.value;
      c["m" := if Get(own, "m") == "1" then "1" else "0"]
  }

  /** In a transfer a key is the first piece's, but for m, which is 1 or 0 as this piece's is 1 or not, and q when this
      piece has it. */
  lemma KeysMean(held: Controls, own: Controls, k: string)
    ensures
      var c := Keys(Some(held), own);
      if k == "m" then k in c && c[k] == (if "m" in own && own["m"] == "1" then "1" else "0")
      else if k == "q" && k in own then k in c && c[k] == own[k]
      else (k in c <==> k in held) && (k in c ==> c[k] == held[k])
  {
  }

  /** One piece, its keys and text already read. */
  function TakePiece(s: Images, own: Controls, payload: string): Images {
    var c := Keys(s.partCtl, own);
    var b := Decode(payload);
    if b.None? then Images([], None, s.done + [BadBase64(c)])
    else if Get(c, "m") == "1" then
      if |s.part| + |b.value| > LIMIT then Images([], None, s.done)
      else Images(s.part + b.value, Some(c), s.done)
    else if s.partCtl.Some? then Images([], None, s.done + [Picture(c, s.part + b.value)])
    else s.(done := s.done + [Picture(c, b.value)])
  }

  function Take(s: Images, body: string): Images {
    if body == [] || body[0] != 'G' then s
    else
      var cut := Cut(body[1..], ';');
      TakePiece(s, Read(Fields(cut.0), map[]), if cut.1.Some? then cut.1.value else [])
  }

  function TakeAll(s: Images, bodies: seq<string>): Images
    decreases |bodies|
  {
    if bodies == [] then s else TakeAll(Take(s, bodies[0]), bodies[1..])
  }

  class Receiver {
    var part: seq<Byte>
    var partCtl: Option<Controls>
    var done: seq<Outcome>

    function State(): Images
      reads this
    {
      Images(part, partCtl, done)
    }

    constructor ()
      ensures State() == Images([], None, [])
    {
      part, partCtl, done := [], None, [];
    }

    /** kitty: one APC command. */
    method Kitty(body: string)
      modifies this
      ensures State() == Take(old(State()), body)
    {
      hide Cut, Read, Fields, Decode;
      if body == [] || body[0] != 'G' {
        return;
      }
      var cut := Cut(body[1..], ';');
      var payload := if cut.1.Some? then cut.1.value else [];
      var ctl := Read(Fields(cut.0), map[]);
      if partCtl.Some? {
        var c := partCtl.value;
        if "q" in ctl {
          c := c["q" := ctl["q"]];
        }
        ctl := c["m" := if Get(ctl, "m") == "1" then "1" else "0"];
      }
      var b := Decode(payload);
      if b.None? {
        done := done + [BadBase64(ctl)];
        part, partCtl := [], None;
        return;
      }
      if Get(ctl, "m") == "1" {
        if |part| + |b.value| > LIMIT {
          part, partCtl := [], None;
          return;
        }
        part := part + b.value;
        partCtl := Some(ctl);
        return;
      }
      var data := b.value;
      if partCtl.Some? {
        data := part + data;
        part, partCtl := [], None;
      }
      done := done + [Picture(ctl, data)];
    }
  }

  // ---- what is sent arrives ----

  lemma {:induction false} DigitsAreClean(n: nat)
    ensures Clean(Terminal.Itoa(n))
    decreases n
  {
    if n >= 10 {
      DigitsAreClean(n / 10);
    }
  }

  lemma PairsAreClean(w: nat, h: nat, first: bool, more: string)
    requires more == "0" || more == "1"
    ensures AllClean(Pairs(w, h, first, more))
  {
    hide Terminal.Itoa;
    DigitsAreClean(w);
    DigitsAreClean(h);
  }

  lemma MapOfMore(more: string)
    ensures MapOf([("m", more)], map[]) == map["m" := more]
  {
    assert [("m", more)][1..] == [];
  }

  lemma MapOfFirst(w: nat, h: nat, more: string)
    ensures MapOf(FirstPairs(w, h, more), map[]) == First(w, h, more)
  {
    hide Terminal.Itoa;
    var p := FirstPairs(w, h, more);
    MapFrom(p, 0, map[]);
    MapFrom(p, 1, map["a" := "T"]);
    MapFrom(p, 2, map["a" := "T", "f" := "100"]);
    MapFrom(p, 3, map["a" := "T", "f" := "100", "i" := "7337"]);
    var m4 := map["a" := "T", "f" := "100", "i" := "7337", "c" := Terminal.Itoa(w)];
    MapFrom(p, 4, m4);
    var m5 := m4["r" := Terminal.Itoa(h)];
    MapFrom(p, 5, m5);
    MapFrom(p, 6, m5["C" := "1"]);
    MapFrom(p, 7, m5["C" := "1"]["q" := "2"]);
  }

  lemma MapFrom(p: seq<(string, string)>, k: nat, m: Controls)
    requires k < |p|
    ensures MapOf(p[k..], m) == MapOf(p[k + 1..], m[p[k].0 := p[k].1])
    ensures p[0..] == p && MapOf(p[|p|..], m) == m
  {
    assert p[k..][1..] == p[k + 1..];
  }

  /** A command is read as the keys and the text it was made of. */
  lemma BodyIsRead(s: Images, pairs: seq<(string, string)>, payload: string)
    requires pairs != [] && AllClean(pairs)
    ensures Take(s, Body(pairs, payload)) == TakePiece(s, MapOf(pairs, map[]), payload)
  {
    hide TakePiece;
    ReadText(pairs, map[]);
    assert Body(pairs, payload)[1..] == Text(pairs) + [';'] + payload;
    CutAt(Text(pairs), ';', payload);
  }

  function Own(w: nat, h: nat, first: bool, more: string): Controls {
    if first then First(w, h, more) else map["m" := more]
  }

  lemma SentIsTaken(s: Images, w: nat, h: nat, first: bool, more: string, b: seq<Byte>)
    requires more == "0" || more == "1"
    ensures Take(s, Body(Pairs(w, h, first, more), Encode(b))) == TakePiece(s, Own(w, h, first, more), Encode(b))
    ensures Decode(Encode(b)) == Some(b)
  {
    hide Body, Take, TakePiece, Encode, Decode, MapOf, AllClean;
    PairsAreClean(w, h, first, more);
    MapOfMore(more);
    MapOfFirst(w, h, more);
    BodyIsRead(s, Pairs(w, h, first, more), Encode(b));
    DecodeUndoesEncode(b);
  }

  /** How many of the bytes come before the last piece: only they are held to the limit. */
  function BeforeLast(size: nat): nat {
    if size <= 3072 then 0 else 3072 + BeforeLast(size - 3072)
  }

  lemma {:induction false} BeforeLastIs(size: nat)
    requires size > 0
    ensures BeforeLast(size) == (size - 1) / 3072 * 3072 < size
    decreases size
  {
    if size > 3072 {
      BeforeLastIs(size - 3072);
    }
  }

  /** A transfer ended with a picture under these keys being the last thing done. */
  predicate EndsUnder(r: Images, c: Controls) {
    && r.part == [] && r.partCtl.None? && r.done != []
    && r.done[|r.done| - 1].Picture? && r.done[|r.done| - 1].controls == c
  }

  lemma OneMore(s: Images, w: nat, h: nat, first: bool, data: seq<Byte>)
    ensures
      var more := if |data| <= 3072 then "0" else "1";
      var b := if |data| <= 3072 then data else data[..3072];
      var t := TakePiece(s, Own(w, h, first, more), Encode(b));
      TakeAll(s, Bodies(w, h, first, data)) ==
        if |data| <= 3072 then t else TakeAll(t, Bodies(w, h, false, data[3072..]))
  {
    hide Body, Encode, Take, TakePiece;
    var more := if |data| <= 3072 then "0" else "1";
    var b := if |data| <= 3072 then data else data[..3072];
    SentIsTaken(s, w, h, first, more, b);
    var one := Body(Pairs(w, h, first, more), Encode(b));
    if |data| <= 3072 {
      assert [one][1..] == [];
    } else {
      var rest := Bodies(w, h, false, data[3072..]);
      assert ([one] + rest)[1..] == rest;
    }
  }

  /** The later pieces in a transfer under way. */
  lemma {:induction false} LaterPieces(s: Images, w: nat, h: nat, data: seq<Byte>)
    requires s.partCtl.Some? && |s.part| <= LIMIT
    ensures
      var r := TakeAll(s, Bodies(w, h, false, data));
      if |s.part| + BeforeLast(|data|) <= LIMIT
      then r == Images([], None, s.done + [Picture(s.partCtl.value["m" := "0"], s.part + data)])
      else EndsUnder(r, map["m" := "0"])
    decreases |data|
  {
    hide Bodies, Encode, Decode;
    OneMore(s, w, h, false, data);
    if |data| <= 3072 {
      DecodeUndoesEncode(data);
    } else {
      DecodeUndoesEncode(data[..3072]);
      var c := s.partCtl.value["m" := "1"];
      if |s.part| + 3072 > LIMIT {
        StrayPieces(Images([], None, s.done), w, h, data[3072..]);
      } else {
        LaterPieces(Images(s.part + data[..3072], Some(c), s.done), w, h, data[3072..]);
        assert c["m" := "0"] == s.partCtl.value["m" := "0"];
        assert s.part + data[..3072] + data[3072..] == s.part + data;
      }
    }
  }

  /** The later pieces when the transfer they belong to was given up: they end as a picture under no keys. */
  lemma {:induction false} StrayPieces(s: Images, w: nat, h: nat, data: seq<Byte>)
    requires s.partCtl.None? && s.part == []
    ensures EndsUnder(TakeAll(s, Bodies(w, h, false, data)), map["m" := "0"])
    decreases |data|
  {
    hide Bodies, Encode, Decode;
    OneMore(s, w, h, false, data);
    if |data| <= 3072 {
      DecodeUndoesEncode(data);
    } else {
      DecodeUndoesEncode(data[..3072]);
      assert s.part + data[..3072] == data[..3072];
      LaterPieces(Images(data[..3072], Some(map["m" := "1"]), s.done), w, h, data[3072..]);
      assert map["m" := "1"]["m" := "0"] == map["m" := "0"];
    }
  }

  /** With no transfer under way, what the sender writes for a picture hands over exactly its bytes under the
      first piece's keys, precisely when the bytes before its last piece are within the limit. */
  lemma PictureArrives(s: Images, w: nat, h: nat, data: seq<Byte>)
    requires s.part == [] && s.partCtl.None?
    ensures
      var r := TakeAll(s, Bodies(w, h, true, data));
      && r.part == [] && r.partCtl.None?
      && (r.done == s.done + [Picture(First(w, h, "0"), data)] <==> BeforeLast(|data|) <= LIMIT)
  {
    hide Bodies, Encode, Decode, Terminal.Itoa;
    OneMore(s, w, h, true, data);
    if |data| <= 3072 {
      DecodeUndoesEncode(data);
    } else {
      DecodeUndoesEncode(data[..3072]);
      var c := First(w, h, "1");
      assert s.part + data[..3072] == data[..3072];
      LaterPieces(Images(data[..3072], Some(c), s.done), w, h, data[3072..]);
      assert c["m" := "0"] == First(w, h, "0");
      assert data[..3072] + data[3072..] == data;
      assert "a" in First(w, h, "0") && "a" !in map["m" := "0"];
    }
  }

  /** So every picture within the limit arrives. */
  lemma PictureWithinLimit(s: Images, w: nat, h: nat, data: seq<Byte>)
    requires s.part == [] && s.partCtl.None? && |data| <= LIMIT
    ensures TakeAll(s, Bodies(w, h, true, data)) == Images([], None, s.done + [Picture(First(w, h, "0"), data)])
  {
    PictureArrives(s, w, h, data);
    if data != [] {
      BeforeLastIs(|data|);
    }
  }
}
