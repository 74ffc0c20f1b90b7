/** The running command's standard input (web/stdin.go): typed keys carry over from one command to the next,
    the terminal's replies do not. A Read that has to wait returns Waits and is tried again. */
module Stdin {
  import opened Wrappers

  type Bytes = seq<bv8>

  const LIMIT: nat := 0x10_0000

  /** Typed bytes, or a reply, an interrupt or a wake, with the command it came during. */
  datatype Item = Item(b: Bytes, reply: bool, cmd: nat, wake: bool, interrupt: bool) {
    predicate Mark() {
      wake || interrupt
    }

    /** For the command cmd only. */
    predicate Private() {
      reply || interrupt
    }
  }

  /** What items are made of, one byte or mark at a time. */
  datatype Token = Byte(b: bv8, private: bool, cmd: nat) | Mark(private: bool, cmd: nat)

  function Tokens(it: Item): seq<Token> {
    if it.Mark() then [Token.Mark(it.Private(), it.cmd)] else BytesOf(it.b, it.Private(), it.cmd)
  }

  function BytesOf(b: Bytes, private: bool, cmd: nat): (ts: seq<Token>)
    ensures |ts| == |b| && forall i :: 0 <= i < |b| ==> ts[i] == Byte(b[i], private, cmd)
  {
    if b == [] then [] else [Byte(b[0], private, cmd)] + BytesOf(b[1..], private, cmd)
  }

  function Queued(items: seq<Item>): seq<Token> {
    if items == [] then [] else Tokens(items[0]) + Queued(items[1..])
  }

  function Size(items: seq<Item>): nat {
    if items == [] then 0 else |items[0].b| + Size(items[1..])
  }

  /** What became of a token: a Read during command at returned it, or dropped it. */
  datatype Fate = Fate(token: Token, read: bool, at: nat)

  function Fates(ts: seq<Token>, read: bool, at: nat): (fs: seq<Fate>)
    ensures |fs| == |ts| && forall i :: 0 <= i < |ts| ==> fs[i] == Fate(ts[i], read, at)
  {
    if ts == [] then [] else [Fate(ts[0], read, at)] + Fates(ts[1..], read, at)
  }

  function TokensOf(fs: seq<Fate>): seq<Token> {
    if fs == [] then [] else [fs[0].token] + TokensOf(fs[1..])
  }

  /** A command gets typed bytes and what came during it; dropped is only what came during another. */
  ghost predicate Fair(fs: seq<Fate>) {
    forall i :: 0 <= i < |fs| ==> if fs[i].read then !fs[i].token.private || fs[i].token.cmd == fs[i].at
                                  else fs[i].token.private && fs[i].token.cmd != fs[i].at
  }

  lemma {:induction false} TokensAppend(a: seq<Fate>, b: seq<Fate>)
    ensures TokensOf(a + b) == TokensOf(a) + TokensOf(b)
    decreases |a|
  {
    if a == [] {
      assert a + b == b && [] + TokensOf(b) == TokensOf(b);
    } else {
      assert (a + b)[0] == a[0] && (a + b)[1..] == a[1..] + b;
      TokensAppend(a[1..], b);
      Assoc([a[0].token], TokensOf(a[1..]), TokensOf(b));
    }
  }

  lemma {:induction false} FateTokens(ts: seq<Token>, read: bool, at: nat)
    ensures TokensOf(Fates(ts, read, at)) == ts
    decreases |ts|
  {
    if ts != [] {
      FateTokens(ts[1..], read, at);
      assert Fates(ts, read, at)[1..] == Fates(ts[1..], read, at);
    }
  }

  lemma FatesAppend(fs: seq<Fate>, ts: seq<Token>, read: bool, at: nat)
    ensures TokensOf(fs + Fates(ts, read, at)) == TokensOf(fs) + ts
  {
    TokensAppend(fs, Fates(ts, read, at));
    FateTokens(ts, read, at);
  }

  lemma {:induction false} QueuedSnoc(items: seq<Item>, it: Item)
    ensures Queued(items + [it]) == Queued(items) + Tokens(it)
    ensures Size(items + [it]) == Size(items) + |it.b|
    decreases |items|
  {
    var all := items + [it];
    if items == [] {
      assert all[0] == it && all[1..] == [];
      assert Tokens(it) + [] == Tokens(it) && [] + Tokens(it) == Tokens(it);
    } else {
      assert all[0] == items[0] && all[1..] == items[1..] + [it];
      QueuedSnoc(items[1..], it);
      Assoc(Tokens(items[0]), Queued(items[1..]), Tokens(it));
    }
  }

  datatype Status = Data | Eof | Woken | Waits

  /** What holds between calls, for what was accepted and what became of it. Counted besides the bytes queued are
      those of marks that were read. */
  ghost predicate Kept(items: seq<Item>, size: nat, cmd: nat, accepted: seq<Token>, fates: seq<Fate>, marks: nat) {
    && size == Size(items) + marks <= LIMIT
    && TokensOf(fates) + Queued(items) == accepted
    && Fair(fates)
    && forall i :: 0 <= i < |items| ==> items[i].cmd <= cmd
  }

  /** May a Read during command cmd return, or drop, what came as it did? */
  predicate May(it: Item, read: bool, cmd: nat) {
    if read then !it.Private() || it.cmd == cmd else it.Private() && it.cmd != cmd
  }

  /** The front item is dropped, or it is a mark and read; then its bytes stay counted. */
  lemma ItemGoes(items: seq<Item>, size: nat, cmd: nat, accepted: seq<Token>, fates: seq<Fate>, marks: nat,
        read: bool)
    requires Kept(items, size, cmd, accepted, fates, marks) && items != [] && May(items[0], read, cmd)
    requires read ==> items[0].Mark()
    ensures |items[0].b| <= size
    ensures
      var n, gone := |items[0].b|, Fates(Tokens(items[0]), read, cmd);
      if read then Kept(items[1..], size, cmd, accepted, fates + gone, marks + n)
      else Kept(items[1..], size - n, cmd, accepted, fates + gone, marks)
  {
    var gone := Tokens(items[0]);
    FatesAppend(fates, gone, read, cmd);
    FairAppend(fates, gone, read, cmd, items[0]);
    Assoc(TokensOf(fates), gone, Queued(items[1..]));
  }

  /** The first n bytes of the front item are returned. */
  lemma BytesGo(items: seq<Item>, size: nat, cmd: nat, accepted: seq<Token>, fates: seq<Fate>, marks: nat,
        n: nat)
    requires Kept(items, size, cmd, accepted, fates, marks) && items != [] && May(items[0], true, cmd)
    requires !items[0].Mark() && n <= |items[0].b|
    ensures n <= size
    ensures var it := items[0];
      n <= |Tokens(it)| &&
      Kept([it.(b := it.b[n..])] + items[1..], size - n, cmd, accepted,
           fates + Fates(Tokens(it)[..n], true, cmd), marks)
  {
    hide Fair, Queued, Size, Tokens, TokensOf, Fates;
    var it, rest := items[0], items[1..];
    var left := it.(b := it.b[n..]);
    SplitTokens(it, n);
    var gone := Tokens(it)[..n];
    FatesAppend(fates, gone, true, cmd);
    FairAppend(fates, gone, true, cmd, it);
    Assoc(gone, Tokens(left), Queued(rest));
    Assoc(TokensOf(fates), gone, Tokens(left) + Queued(rest));
    QueuedCons(it, rest);
    QueuedCons(left, rest);
    assert [it] + rest == items;
  }

  lemma QueuedCons(it: Item, rest: seq<Item>)
    ensures Queued([it] + rest) == Tokens(it) + Queued(rest) && Size([it] + rest) == |it.b| + Size(rest)
  {
    assert ([it] + rest)[1..] == rest;
  }

  lemma SplitTokens(it: Item, n: nat)
    requires !it.Mark() && n <= |it.b|
    ensures |Tokens(it)| == |it.b| && Tokens(it) == Tokens(it)[..n] + Tokens(it.(b := it.b[n..]))
  {
    hide BytesOf;
    var all, left := Tokens(it), Tokens(it.(b := it.b[n..]));
    assert forall i :: 0 <= i < |left| ==> left[i] == all[n..][i];
    assert left == all[n..];
  }

  /** An item with no bytes left is as good as gone. */
  lemma EmptyGoes(items: seq<Item>, size: nat, cmd: nat, accepted: seq<Token>, fates: seq<Fate>, marks: nat)
    requires Kept(items, size, cmd, accepted, fates, marks) && items != [] && !items[0].Mark() && items[0].b == []
    ensures Kept(items[1..], size, cmd, accepted, fates, marks)
  {
    assert Tokens(items[0]) == [] && [] + Queued(items[1..]) == Queued(items[1..]);
  }

  lemma PushKeeps(items: seq<Item>, size: nat, cmd: nat, accepted: seq<Token>, fates: seq<Fate>, marks: nat,
        it: Item)
    requires Kept(items, size, cmd, accepted, fates, marks) && it.cmd == cmd && size + |it.b| <= LIMIT
    ensures Kept(items + [it], size + |it.b|, cmd, accepted + Tokens(it), fates, marks)
  {
    hide Fair;
    QueuedSnoc(items, it);
    Assoc(TokensOf(fates), Queued(items), Tokens(it));
  }

  lemma FairAppend(fates: seq<Fate>, ts: seq<Token>, read: bool, cmd: nat, it: Item)
    requires Fair(fates) && ts <= Tokens(it)
    requires if read then !it.Private() || it.cmd == cmd else it.Private() && it.cmd != cmd
    ensures Fair(fates + Fates(ts, read, cmd))
  {
    assert forall i :: 0 <= i < |ts| ==> ts[i] == Tokens(it)[i];
  }

  /** What is left when what is at the front for another command is dropped. */
  function Skipped(items: seq<Item>, cmd: nat): (left: seq<Item>)
    ensures left == [] || !left[0].Private() || left[0].cmd == cmd
  {
    if items != [] && items[0].Private() && items[0].cmd != cmd then Skipped(items[1..], cmd) else items
  }

  /** Of the items at the front those go that are replies or interrupts of another command, up to the first that is
      not. */
  lemma {:induction false} SkippedMeans(items: seq<Item>, cmd: nat) returns (k: nat)
    ensures k <= |items| && Skipped(items, cmd) == items[k..]
    ensures forall i :: 0 <= i < k ==> (items[i].reply || items[i].interrupt) && items[i].cmd != cmd
    ensures k < |items| ==> (!items[k].reply && !items[k].interrupt) || items[k].cmd == cmd
    decreases |items|
  {
    k := 0;
    if items != [] && items[0].Private() && items[0].cmd != cmd {
      k := SkippedMeans(items[1..], cmd);
      assert items[1..][k..] == items[k + 1..] && forall i :: 0 < i < k + 1 ==> items[i] == items[1..][i - 1];
      k := k + 1;
    }
  }

  class InQueue {
    var items: seq<Item>
    var size: nat
    var cmd: nat
    var closed: bool

    /** The tokens of every item accepted, what became of those no longer queued, and the bytes of the marks that
        were read. */
    ghost var accepted: seq<Token>
    ghost var fates: seq<Fate>
    ghost var marks: nat

    ghost predicate Valid()
      reads this
    {
      Kept(items, size, cmd, accepted, fates, marks)
    }

    constructor ()
      ensures Valid() && items == [] && cmd == 0 && !closed && accepted == [] && fates == [] && marks == 0
    {
      items, size, cmd, closed := [], 0, 0, false;
      accepted, fates, marks := [], [], 0;
    }

    method Push(item: Item)
      requires Valid()
      modifies this`items, this`size, this`accepted
      ensures Valid()
      ensures
        var it := item.(cmd := cmd);
        if closed || old(size) + |item.b| > LIMIT then items == old(items) && accepted == old(accepted)
        else items == old(items) + [it] && accepted == old(accepted) + Tokens(it)
    {
      if closed || size + |item.b| > LIMIT {
        return;
      }
      var it := item.(cmd := cmd);
      PushKeeps(items, size, cmd, accepted, fates, marks, it);
      hide Kept;
      items := items + [it];
      size := size + |it.b|;
      accepted := accepted + Tokens(it);
    }

    /** A new command starts: replies meant for the last one are not its. */
    method Next()
      requires Valid()
      modifies this`cmd
      ensures Valid() && cmd == old(cmd) + 1
    {
      cmd := cmd + 1;
    }

    method Close()
      requires Valid()
      modifies this`closed
      ensures Valid() && closed
    {
      closed := true;
    }

    /** One try of Read: it drops what is not the running command's from the front, and returns what comes
        first then. */
    method Read(most: nat) returns (data: Bytes, status: Status)
      requires Valid()
      modifies this`items, this`size, this`fates, this`marks
      ensures Valid() && old(fates) <= fates
      ensures
        var left := Skipped(old(items), cmd);
        if left == [] then
          items == [] && data == [] && status == (if closed then Eof else Waits) && marks == old(marks)
        else if left[0].interrupt || left[0].wake then
          && items == left[1..] && data == [] && status == (if left[0].interrupt then Eof else Woken)
          && marks == old(marks) + |left[0].b| && ReadLast(fates, Tokens(left[0]), cmd)
        else
          var n := if most < |left[0].b| then most else |left[0].b|;
          && data == left[0].b[..n] && status == Data && marks == old(marks)
          && items == (if n < |left[0].b| then [left[0].(b := left[0].b[n..])] else []) + left[1..]
          && ReadLast(fates, BytesOf(data, left[0].Private(), left[0].cmd), cmd)
    {
      hide Kept, Tokens, Fates, BytesOf;
      while |items| > 0 && (items[0].reply || items[0].interrupt) && items[0].cmd != cmd
        invariant Valid() && old(fates) <= fates && marks == old(marks)
        invariant Skipped(items, cmd) == Skipped(old(items), cmd)
        decreases |items|
      {
        ItemGoes(items, size, cmd, accepted, fates, marks, false);
        fates := fates + Fates(Tokens(items[0]), false, cmd);
        size := size - |items[0].b|;
        items := items[1..];
      }
      if |items| > 0 {
        var it := items[0];
        if it.interrupt || it.wake {
          ItemGoes(items, size, cmd, accepted, fates, marks, true);
          items := items[1..];
          fates := fates + Fates(Tokens(it), true, cmd);
          marks := marks + |it.b|;
          return [], if it.interrupt then Eof else Woken;
        }
        var n := if most < |it.b| then most else |it.b|;
        BytesGo(items, size, cmd, accepted, fates, marks, n);
        data := it.b[..n];
        FirstTokens(it, n);
        items := [it.(b := it.b[n..])] + items[1..];
        size := size - n;
        fates := fates + Fates(Tokens(it)[..n], true, cmd);
        if |items[0].b| == 0 {
          EmptyGoes(items, size, cmd, accepted, fates, marks);
          items := items[1..];
        }
        return data, Data;
      }
      return [], if closed then Eof else Waits;
    }
  }

  lemma FirstTokens(it: Item, n: nat)
    requires !it.Mark() && n <= |it.b|
    ensures |Tokens(it)| == |it.b| && Tokens(it)[..n] == BytesOf(it.b[..n], it.Private(), it.cmd)
  {
    hide BytesOf;
  }

  /** The tokens last returned, by a read during command cmd. */
  ghost predicate ReadLast(fates: seq<Fate>, ts: seq<Token>, cmd: nat) {
    |ts| <= |fates| && fates[|fates| - |ts|..] == Fates(ts, true, cmd)
  }

  // ---- what it means for typing ----

  function Typed(ts: seq<Token>): seq<Token> {
    if ts == [] then [] else (if ts[0].Byte? && !ts[0].private then [ts[0]] else []) + Typed(ts[1..])
  }

  /** What reads returned, of all that is gone. */
  function ReadTokens(fs: seq<Fate>): seq<Token> {
    if fs == [] then [] else (if fs[0].read then [fs[0].token] else []) + ReadTokens(fs[1..])
  }

  lemma {:induction false} TypedAppend(a: seq<Token>, b: seq<Token>)
    ensures Typed(a + b) == Typed(a) + Typed(b)
    decreases |a|
  {
    if a == [] {
      assert a + b == b && [] + Typed(b) == Typed(b);
    } else {
      assert (a + b)[0] == a[0] && (a + b)[1..] == a[1..] + b;
      TypedAppend(a[1..], b);
      Assoc(if a[0].Byte? && !a[0].private then [a[0]] else [], Typed(a[1..]), Typed(b));
    }
  }

  lemma {:induction false} TypedAreRead(fs: seq<Fate>)
    requires Fair(fs)
    ensures Typed(ReadTokens(fs)) == Typed(TokensOf(fs))
    decreases |fs|
  {
    if fs != [] {
      TypedAreRead(fs[1..]);
      var one := if fs[0].read then [fs[0].token] else [];
      TypedAppend(one, ReadTokens(fs[1..]));
      TypedAppend([fs[0].token], TokensOf(fs[1..]));
      assert [fs[0].token][1..] == [];
      assert !fs[0].read ==> fs[0].token.private;
    }
  }

  /** In every run the typed bytes read, with those still queued, are the typed bytes accepted, in order. */
  lemma TypedInOrder(items: seq<Item>, size: nat, cmd: nat, accepted: seq<Token>, fates: seq<Fate>, marks: nat)
    requires Kept(items, size, cmd, accepted, fates, marks)
    ensures Typed(ReadTokens(fates)) + Typed(Queued(items)) == Typed(accepted)
  {
    TypedAreRead(fates);
    TypedAppend(TokensOf(fates), Queued(items));
  }

  /** Reading an interrupt or a wake leaves the size that of what is queued exactly when it carries no bytes. */
  lemma MarksCarryNothing(items: seq<Item>, size: nat, cmd: nat, accepted: seq<Token>, fates: seq<Fate>)
    requires Kept(items, size, cmd, accepted, fates, 0) && items != [] && May(items[0], true, cmd)
    requires items[0].interrupt || items[0].wake
    ensures exists marks: nat ::
      Kept(items[1..], size, cmd, accepted, fates + Fates(Tokens(items[0]), true, cmd), marks)
    ensures size == Size(items[1..]) <==> items[0].b == []
  {
    ItemGoes(items, size, cmd, accepted, fates, 0, true);
  }
}
