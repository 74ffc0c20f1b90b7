/** The text that completion adds (shell/editor.go, completeWord): what all the candidates have in common, byte
    by byte, read as runes again. */
module Completion {
  import opened Utf8

  /** What two texts begin with alike. */
  function Common<T(==)>(a: seq<T>, b: seq<T>): (c: seq<T>)
    ensures c <= a && c <= b
    ensures |c| < |a| && |c| < |b| ==> a[|c|] != b[|c|]
  {
    if a == [] || b == [] || a[0] != b[0] then [] else [a[0]] + Common(a[1..], b[1..])
  }

  function CommonAll<T(==)>(a: seq<T>, bs: seq<seq<T>>): (c: seq<T>)
    ensures c <= a && forall i :: 0 <= i < |bs| ==> c <= bs[i]
    decreases |bs|
  {
    if bs == [] then a
    else
      var d := Common(a, bs[0]);
      var c := CommonAll(d, bs[1..]);
      assert forall i :: 1 <= i < |bs| ==> bs[i] == bs[1..][i - 1];
      c
  }

  /** A start of both after which they differ is all they have in common. */
  lemma CommonIs<T>(a: seq<T>, b: seq<T>, c: seq<T>)
    requires c <= a && c <= b && (|c| < |a| && |c| < |b| ==> a[|c|] != b[|c|])
    ensures Common(a, b) == c
  {
    hide Common;
    var d := Common(a, b);
    assert forall k :: 0 <= k < |c| ==> a[k] == b[k];
    assert forall k :: 0 <= k < |d| ==> a[k] == b[k];
    assert c == a[..|c|] && d == a[..|d|];
  }

  /** Shortening a by its last element while it does not start b leaves their common start alone. */
  lemma CommonShortens<T>(a: seq<T>, b: seq<T>)
    ensures a <= b ==> Common(a, b) == a
    ensures !(a <= b) ==> a != [] && Common(a[..|a| - 1], b) == Common(a, b)
  {
    hide Common;
    if a <= b {
      CommonIs(a, b, a);
    } else {
      var c := Common(a, b);
      assert c == a[..|c|] && a[..|a|] == a;
      CommonIs(a[..|a| - 1], b, c);
    }
  }

  /** Nothing longer starts them all. */
  lemma {:induction false} CommonAllIsLongest<T>(a: seq<T>, bs: seq<seq<T>>, c: seq<T>)
    requires c <= a && forall i :: 0 <= i < |bs| ==> c <= bs[i]
    ensures c <= CommonAll(a, bs)
    decreases |bs|
  {
    if bs != [] {
      var d := Common(a, bs[0]);
      assert c <= bs[0];
      assert c <= d;
      CommonAllIsLongest(d, bs[1..], c);
    }
  }

  // ---- the bytes in common and the runes in common ----

  function EncodeAll(bs: seq<string>): (r: seq<Bytes>)
    ensures |r| == |bs| && forall i :: 0 <= i < |bs| ==> r[i] == Encode(bs[i])
  {
    seq(|bs|, i requires 0 <= i < |bs| => Encode(bs[i]))
  }

  /** The bytes that all the candidates begin with. */
  function CommonBytes(a: string, bs: seq<string>): Bytes {
    CommonAll(Encode(a), EncodeAll(bs))
  }

  /** The runes that all the candidates begin with. */
  function CommonRunes(a: string, bs: seq<string>): string {
    CommonAll(a, bs)
  }

  /** All the candidates go on after k runes, with runes that begin with the same byte. */
  predicate SameLead(a: string, bs: seq<string>, k: nat) {
    k < |a| && forall i :: 0 <= i < |bs| ==> k < |bs[i]| && EncodeChar(bs[i][k])[0] == EncodeChar(a[k])[0]
  }

  /** A text's bytes from a place between runes on. */
  lemma EncodeFrom(s: string, c: string)
    requires c <= s
    ensures Encode(s) == Encode(c) + Encode(s[|c|..])
  {
    assert c + s[|c|..] == s;
    EncodeAppend(c, s[|c|..]);
  }

  lemma RestIsPrefix(c: Bytes, p: Bytes, q: Bytes)
    requires c + p <= c + q
    ensures p <= q
  {
    assert forall k :: 0 <= k < |p| ==> p[k] == (c + p)[|c| + k] == (c + q)[|c| + k] == q[k];
  }

  /** The bytes in common are those of the runes in common and perhaps the start of one more, the same for all. */
  lemma BytesInCommon(a: string, bs: seq<string>) returns (p: Bytes)
    ensures CommonBytes(a, bs) == Encode(CommonRunes(a, bs)) + p
    ensures p != [] ==> |CommonRunes(a, bs)| < |a| && p < EncodeChar(a[|CommonRunes(a, bs)|])
    ensures p != [] <==> SameLead(a, bs, |CommonRunes(a, bs)|)
  {
    hide Encode, EncodeChar, CommonAll;
    var c, b := CommonRunes(a, bs), CommonBytes(a, bs);
    EncodeFrom(a, c);
    forall i | 0 <= i < |bs| ensures Encode(c) <= EncodeAll(bs)[i] {
      EncodeFrom(bs[i], c);
    }
    CommonAllIsLongest(Encode(a), EncodeAll(bs), Encode(c));
    p := b[|Encode(c)|..];
    assert b == Encode(c) + p;
    RestIsPrefix(Encode(c), p, Encode(a[|c|..]));
    forall i | 0 <= i < |bs| ensures p <= Encode(bs[i][|c|..]) {
      EncodeFrom(bs[i], c);
      assert b <= EncodeAll(bs)[i];
      RestIsPrefix(Encode(c), p, Encode(bs[i][|c|..]));
    }
    if p != [] {
      LeadIsShared(a, bs, p);
      NotWhole(a, bs, p);
    } else if SameLead(a, bs, |c|) {
      LeadIsCommon(a, bs);
    }
  }

  lemma FirstRune(s: string)
    requires s != ""
    ensures Encode(s) == EncodeChar(s[0]) + Encode(s[1..]) && Encode(s)[0] == EncodeChar(s[0])[0]
  {
  }

  lemma EncodeNone()
    ensures Encode("") == []
  {
  }

  lemma LeadIsShared(a: string, bs: seq<string>, p: Bytes)
    requires p != [] && p <= Encode(a[|CommonRunes(a, bs)|..])
    requires forall i :: 0 <= i < |bs| ==> p <= Encode(bs[i][|CommonRunes(a, bs)|..])
    ensures SameLead(a, bs, |CommonRunes(a, bs)|)
  {
    hide Encode, EncodeChar, CommonAll;
    var k := |CommonRunes(a, bs)|;
    EncodeNone();
    assert a[k..] != "";
    FirstRune(a[k..]);
    forall i | 0 <= i < |bs| ensures k < |bs[i]| && EncodeChar(bs[i][k])[0] == EncodeChar(a[k])[0] {
      assert bs[i][k..] != "";
      FirstRune(bs[i][k..]);
    }
  }

  /** What is left over is less than a rune: a whole one would be in common. */
  lemma NotWhole(a: string, bs: seq<string>, p: Bytes)
    requires SameLead(a, bs, |CommonRunes(a, bs)|)
    requires p <= Encode(a[|CommonRunes(a, bs)|..])
    requires forall i :: 0 <= i < |bs| ==> p <= Encode(bs[i][|CommonRunes(a, bs)|..])
    ensures p < EncodeChar(a[|CommonRunes(a, bs)|])
  {
    hide Encode, EncodeChar, CommonAll;
    var c := CommonRunes(a, bs);
    var r := a[|c|];
    FirstRune(a[|c|..]);
    if |p| >= |EncodeChar(r)| {
      assert EncodeChar(r) <= p;
      forall i | 0 <= i < |bs| ensures c + [r] <= bs[i] {
        FirstRune(bs[i][|c|..]);
        assert EncodeChar(r) <= Encode(bs[i][|c|..]);
        PrefixFree(r, bs[i][|c|], Encode(bs[i][|c|..][1..]));
      }
      CommonAllIsLongest(a, bs, c + [r]);
      assert false;
    }
  }

  lemma LeadIsCommon(a: string, bs: seq<string>)
    requires SameLead(a, bs, |CommonRunes(a, bs)|)
    ensures |CommonBytes(a, bs)| > |Encode(CommonRunes(a, bs))|
  {
    hide Encode, EncodeChar, CommonAll;
    var c := CommonRunes(a, bs);
    var lead := EncodeChar(a[|c|])[0];
    EncodeFrom(a, c);
    FirstRune(a[|c|..]);
    assert Encode(c) + [lead] <= Encode(a);
    forall i | 0 <= i < |bs| ensures Encode(c) + [lead] <= EncodeAll(bs)[i] {
      EncodeFrom(bs[i], c);
      FirstRune(bs[i][|c|..]);
    }
    CommonAllIsLongest(Encode(a), EncodeAll(bs), Encode(c) + [lead]);
  }

  // ---- what is added ----

  /** What completion adds after the word. Every candidate starts with the word. */
  function Addition(word: string, candidates: seq<string>): string
    requires forall s :: s in candidates ==> word <= s
  {
    if candidates == [] then ""
    else if |candidates| == 1 then
      var s := candidates[0];
      assert s in candidates;
      s[|word|..] + (if s != "" && s[|s| - 1] == '/' then "" else " ")
    else
      var common := CommonBytes(candidates[0], candidates[1..]);
      if |common| > |Encode(word)| then Decode(common[|Encode(word)|..]) else ""
  }

  /** With several candidates, the runes they have in common are added, and after them a replacement character
      for every byte that is in common beyond them. */
  lemma AddsRunes(word: string, candidates: seq<string>)
    requires |candidates| > 1 && forall s :: s in candidates ==> word <= s
    ensures
      var c := CommonRunes(candidates[0], candidates[1..]);
      var extra := |CommonBytes(candidates[0], candidates[1..])| - |Encode(c)|;
      && extra >= 0 && word <= c
      && Addition(word, candidates) == c[|word|..] + Repeated(REPLACEMENT, extra)
      && (extra > 0 <==> SameLead(candidates[0], candidates[1..], |c|))
  {
    hide Encode, EncodeChar, CommonAll;
    var a, bs := candidates[0], candidates[1..];
    var c := CommonRunes(a, bs);
    forall i | 0 <= i < |bs| ensures word <= bs[i] {
      assert bs[i] == candidates[i + 1] && bs[i] in candidates;
    }
    assert a in candidates;
    CommonAllIsLongest(a, bs, word);
    var p := BytesInCommon(a, bs);
    EncodeFrom(c, word);
    var common := CommonBytes(a, bs);
    assert common == Encode(word) + (Encode(c[|word|..]) + p);
    assert common[|Encode(word)|..] == Encode(c[|word|..]) + p;
    DecodeEncoded(c[|word|..], p);
    if p != [] {
      DecodePartial(a[|c|], p);
    }
    if |common| == |Encode(word)| {
      NothingEncoded(c[|word|..]);
    }
  }

  lemma NothingEncoded(s: string)
    requires Encode(s) == []
    ensures s == ""
  {
  }

  /** So completion adds the runes in common exactly when the candidates do not go on with different runes that
      begin with the same byte. */
  lemma AddsCommonRunes(word: string, candidates: seq<string>)
    requires |candidates| > 1 && forall s :: s in candidates ==> word <= s
    ensures
      var c := CommonRunes(candidates[0], candidates[1..]);
      word <= c &&
      (Addition(word, candidates) == c[|word|..] <==> !SameLead(candidates[0], candidates[1..], |c|))
  {
    AddsRunes(word, candidates);
    var c := CommonRunes(candidates[0], candidates[1..]);
    RepeatedLength(REPLACEMENT, |CommonBytes(candidates[0], candidates[1..])| - |Encode(c)|);
    assert c[|word|..] + "" == c[|word|..];
  }

  lemma {:induction false} RepeatedLength(c: char, n: nat)
    ensures |Repeated(c, n)| == n
    decreases n
  {
    if n > 0 {
      RepeatedLength(c, n - 1);
    }
  }

  /** Two names, e with an acute and e with a grave accent: half of a rune is added to the line. */
  lemma HalfARune()
    ensures Addition("", ["\U{e9}", "\U{e8}"]) == [REPLACEMENT]
  {
    var a, b := "\U{e9}", "\U{e8}";
    var ss := [a, b];
    assert ss[1..] == [b];
    EncodeOne('\U{e9}');
    EncodeOne('\U{e8}');
    var x: Bytes, y: Bytes := [0xC3, 0xA9], [0xC3, 0xA8];
    assert Encode(a) == x && Encode(b) == y;
    assert x[1..] == [0xA9] && y[1..] == [0xA8];
    assert Common(x, y) == [0xC3] + Common(x[1..], y[1..]) == [0xC3];
    assert EncodeAll([b]) == [y] && [y][1..] == [];
    assert CommonAll(x, [y]) == CommonAll(Common(x, y), [y][1..]);
    assert First([0xC3]) == (REPLACEMENT, 1);
    assert [0xC3][1..] == [];
    assert Decode([0xC3]) == [REPLACEMENT] + Decode([]);
    assert Encode("") == [];
  }
}
