/** Text as bytes: UTF-8 (section 3 of RFC 3629), and how Go reads bytes as runes. */
module Utf8 {
  type Byte = b: int | 0 <= b < 256

  type Bytes = seq<Byte>

  /** What stands for a byte that is not part of a character. */
  const REPLACEMENT: char := '\U{FFFD}'

  function EncodeChar(c: char): (b: Bytes)
    ensures 1 <= |b| <= 4
  {
    var n := c as int;
    if n < 0x80 then [n]
    else if n < 0x800 then [0xC0 + n / 64, 0x80 + n % 64]
    else if n < 0x1_0000 then [0xE0 + n / 4096, 0x80 + n / 64 % 64, 0x80 + n % 64]
    else [0xF0 + n / 262144, 0x80 + n / 4096 % 64, 0x80 + n / 64 % 64, 0x80 + n % 64]
  }

  function Encode(s: string): Bytes {
    if s == "" then [] else EncodeChar(s[0]) + Encode(s[1..])
  }

  /** How many bytes a character that begins with this one has; 0 when none does. */
  function Length(lead: Byte): nat {
    if lead < 0x80 then 1
    else if lead < 0xC0 then 0
    else if lead < 0xE0 then 2
    else if lead < 0xF0 then 3
    else if lead < 0xF8 then 4
    else 0
  }

  function Value(b: Bytes): int
    requires 1 <= |b| <= 4
  {
    var x := b[0] as int;
    if |b| == 1 then x
    else if |b| == 2 then (x - 0xC0) * 64 + Low(b[1])
    else if |b| == 3 then (x - 0xE0) * 4096 + Low(b[1]) * 64 + Low(b[2])
    else (x - 0xF0) * 262144 + Low(b[1]) * 4096 + Low(b[2]) * 64 + Low(b[3])
  }

  function Low(b: Byte): int {
    b as int - 0x80
  }

  predicate Scalar(n: int) {
    0 <= n < 0xD800 || 0xE000 <= n < 0x11_0000
  }

  /** The first character of the bytes and how many it takes. A byte that begins no whole character is one
      replacement. */
  function First(b: Bytes): (r: (char, nat))
    requires b != []
    ensures 1 <= r.1 <= |b|
  {
    var k := Length(b[0]);
    if k == 0 || k > |b| then (REPLACEMENT, 1)
    else
      var n := Value(b[..k]);
      if Scalar(n) && EncodeChar(n as char) == b[..k] then (n as char, k) else (REPLACEMENT, 1)
  }

  /** []rune of a Go string. */
  function Decode(b: Bytes): string {
    if b == [] then ""
    else
      var (c, k) := First(b);
      [c] + Decode(b[k..])
  }

  function Repeated(c: char, n: nat): string {
    if n == 0 then "" else [c] + Repeated(c, n - 1)
  }

  lemma Sixes(n: nat)
    ensures n == n / 64 * 64 + n % 64
    ensures n == n / 4096 * 4096 + n / 64 % 64 * 64 + n % 64
    ensures n == n / 262144 * 262144 + n / 4096 % 64 * 4096 + n / 64 % 64 * 64 + n % 64
  {
    assert n / 64 / 64 == n / 4096 && n / 4096 / 64 == n / 262144;
  }

  lemma CharValue(c: char)
    ensures Length(EncodeChar(c)[0]) == |EncodeChar(c)| && Value(EncodeChar(c)) == c as int && Scalar(c as int)
    ensures forall i :: 1 <= i < |EncodeChar(c)| ==> 0x80 <= EncodeChar(c)[i] < 0xC0
  {
    Sixes(c as int);
  }

  lemma FirstIs(c: char, rest: Bytes)
    ensures First(EncodeChar(c) + rest) == (c, |EncodeChar(c)|)
  {
    hide EncodeChar, Value, Length;
    CharValue(c);
    assert (EncodeChar(c) + rest)[..|EncodeChar(c)|] == EncodeChar(c);
  }

  /** Decoding takes the character that the bytes begin with, and where they begin with none one byte as a
      replacement. */
  lemma FirstMeans(b: Bytes)
    requires b != []
    ensures
      (exists c :: EncodeChar(c) <= b && First(b) == (c, |EncodeChar(c)|)) ||
      ((forall c :: !(EncodeChar(c) <= b)) && First(b) == (REPLACEMENT, 1))
  {
    hide EncodeChar, Value, Length;
    if c :| EncodeChar(c) <= b {
      FirstIs(c, b[|EncodeChar(c)|..]);
      assert EncodeChar(c) + b[|EncodeChar(c)|..] == b;
    } else {
      NoneFirst(b);
    }
  }

  lemma NoneFirst(b: Bytes)
    requires b != [] && forall c :: !(EncodeChar(c) <= b)
    ensures First(b) == (REPLACEMENT, 1)
  {
    hide EncodeChar, Value;
    var k := Length(b[0]);
    if 0 < k <= |b| {
      var n := Value(b[..k]);
      if Scalar(n) {
        assert !(EncodeChar(n as char) <= b);
      }
    }
  }

  /** No character begins with another. */
  lemma PrefixFree(c: char, d: char, rest: Bytes)
    requires EncodeChar(c) <= EncodeChar(d) + rest
    ensures c == d
  {
    hide EncodeChar, First;
    var b := EncodeChar(d) + rest;
    FirstIs(d, rest);
    FirstIs(c, b[|EncodeChar(c)|..]);
    assert EncodeChar(c) + b[|EncodeChar(c)|..] == b;
  }

  lemma {:induction false} DecodeEncoded(s: string, rest: Bytes)
    ensures Decode(Encode(s) + rest) == s + Decode(rest)
    decreases |s|
  {
    hide EncodeChar, First;
    if s == "" {
      assert Encode(s) + rest == rest && "" + Decode(rest) == Decode(rest);
    } else {
      var b := EncodeChar(s[0]);
      assert Encode(s) + rest == b + (Encode(s[1..]) + rest);
      assert (b + (Encode(s[1..]) + rest))[|b|..] == Encode(s[1..]) + rest;
      FirstIs(s[0], Encode(s[1..]) + rest);
      DecodeEncoded(s[1..], rest);
      assert [s[0]] + (s[1..] + Decode(rest)) == s + Decode(rest);
    }
  }

  /** Continuation bytes on their own are replacements. */
  lemma {:induction false} DecodeContinuations(b: Bytes)
    requires forall i :: 0 <= i < |b| ==> 0x80 <= b[i] < 0xC0
    ensures Decode(b) == Repeated(REPLACEMENT, |b|)
    decreases |b|
  {
    if b != [] {
      DecodeContinuations(b[1..]);
    }
  }

  /** A character cut short is as many replacements as it has bytes left. */
  lemma DecodePartial(c: char, b: Bytes)
    requires b < EncodeChar(c)
    ensures Decode(b) == Repeated(REPLACEMENT, |b|)
  {
    hide EncodeChar, Value;
    CharValue(c);
    if b != [] {
      assert b[0] == EncodeChar(c)[0];
      assert forall i :: 0 <= i < |b[1..]| ==> b[1..][i] == EncodeChar(c)[i + 1];
      DecodeContinuations(b[1..]);
    }
  }

  lemma {:induction false} EncodeAppend(s: string, t: string)
    ensures Encode(s + t) == Encode(s) + Encode(t)
    decreases |s|
  {
    hide EncodeChar;
    if s == "" {
      assert s + t == t;
    } else {
      assert (s + t)[0] == s[0] && (s + t)[1..] == s[1..] + t;
      EncodeAppend(s[1..], t);
      assert EncodeChar(s[0]) + (Encode(s[1..]) + Encode(t)) == (EncodeChar(s[0]) + Encode(s[1..])) + Encode(t);
    }
  }

  lemma EncodeOne(c: char)
    ensures Encode([c]) == EncodeChar(c)
  {
    assert [c][1..] == "";
    assert EncodeChar(c) + [] == EncodeChar(c);
  }
}
