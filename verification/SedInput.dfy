/** sed's input with one line of lookahead over several readers, and its output with the final newline the
    last line was read without (shell/sed/sed.go). */
module SedInput {
  import opened Wrappers

  /** A line and whether a newline ended it. */
  datatype Record = Record(text: string, nl: bool)

  /** The text a record stands for. */
  function Text(r: Record): string {
    r.text + if r.nl then "\n" else ""
  }

  function Flatten(rs: seq<Record>): string {
    if rs == [] then "" else Text(rs[0]) + Flatten(rs[1..])
  }

  function NewlineAt(s: string, i: nat): (j: nat)
    requires i <= |s|
    ensures i <= j <= |s| && (j < |s| ==> s[j] == '\n') && forall k :: i <= k < j ==> s[k] != '\n'
    decreases |s| - i
  {
    if i == |s| || s[i] == '\n' then i else NewlineAt(s, i + 1)
  }

  /** The lines of one reader. Only its last can be without a newline. */
  function Records(s: string): seq<Record>
    decreases |s|
  {
    if s == "" then []
    else
      var i := NewlineAt(s, 0);
      if i == |s| then [Record(s, false)] else [Record(s[..i], true)] + Records(s[i + 1..])
  }

  /** The record a newline-ended piece of a reader is. */
  function AsRecord(s: string): Record
    requires s != ""
  {
    if s[|s| - 1] == '\n' then Record(s[..|s| - 1], true) else Record(s, false)
  }

  lemma RecordsNil()
    ensures Records("") == []
  {
  }

  lemma FlattenCons(r: Record, rs: seq<Record>)
    ensures Flatten([r] + rs) == Text(r) + Flatten(rs)
  {
    assert ([r] + rs)[1..] == rs;
  }

  lemma SplitAt(s: string, i: nat)
    requires i < |s| && s[i] == '\n'
    ensures s == (s[..i] + "\n") + s[i + 1..]
  {
  }

  function AllRecords(readers: seq<string>): seq<Record> {
    if readers == [] then [] else Records(readers[0]) + AllRecords(readers[1..])
  }

  /** Splitting a reader's text into records loses nothing. */
  lemma {:induction false} RecordsFlatten(s: string)
    ensures Flatten(Records(s)) == s
    decreases |s|
  {
    if s != "" {
      var i := NewlineAt(s, 0);
      if i == |s| {
        FlattenCons(Record(s, false), []);
        assert s + "" == s;
      } else {
        RecordsFlatten(s[i + 1..]);
        FlattenCons(Record(s[..i], true), Records(s[i + 1..]));
        SplitAt(s, i);
      }
    }
  }

  /** In one reader, a line without a newline is the last and is not empty. */
  lemma {:induction false} OnlyLastUnterminated(s: string, k: nat)
    requires k < |Records(s)| && !Records(s)[k].nl
    ensures k == |Records(s)| - 1 && Records(s)[k].text != ""
    decreases |s|
  {
    var i := NewlineAt(s, 0);
    if i < |s| {
      OnlyLastUnterminated(s[i + 1..], k - 1);
    }
  }

  class Input {
    var readers: seq<string>
    /** What is left of the reader being read. */
    var cur: Option<string>
    var next: string
    var nextNL: bool
    var hasNext: bool
    var line: nat

    /** What is left to read after the lookahead. */
    ghost function Beyond(): seq<Record>
      reads this`readers, this`cur
    {
      (if cur.Some? then Records(cur.value) else []) + AllRecords(readers)
    }

    /** The lines not read yet, the lookahead first. */
    ghost function Rest(): seq<Record>
      reads this`readers, this`cur, this`next, this`nextNL, this`hasNext
    {
      if hasNext then [Record(next, nextNL)] + Beyond() else []
    }

    ghost predicate Valid()
      reads this
    {
      !hasNext ==> Beyond() == []
    }

    constructor (rs: seq<string>)
      ensures Valid() && Rest() == AllRecords(rs) && line == 0
    {
      readers, cur, next, nextNL, hasNext, line := rs, None, "", false, false, 0;
      new;
      Advance();
    }

    /** Reads up to and including the next newline, or what is left. */
    method ReadString() returns (s: string)
      requires cur.Some?
      modifies this`cur
      ensures cur.Some? && old(cur.value) == s + cur.value
      ensures s == "" <==> old(cur.value) == ""
      ensures s != "" ==> Records(old(cur.value)) == [AsRecord(s)] + Records(cur.value)
    {
      var all := cur.value;
      var i := NewlineAt(all, 0);
      var n := if i < |all| then i + 1 else i;
      s := all[..n];
      cur := Some(all[n..]);
      if i < |all| {
        assert s[..i] == all[..i];
      } else if s != "" {
        assert s == all && s[i - 1] in s[0..i];
        assert cur.value == "";
      }
    }

    method Advance()
      modifies this`readers, this`cur, this`next, this`nextNL, this`hasNext
      ensures Valid() && Rest() == old(Beyond())
    {
      hide Records, NewlineAt;
      RecordsNil();
      hasNext := false;
      while true
        invariant !hasNext && Beyond() == old(Beyond())
        decreases |readers|, cur.Some?
      {
        if cur.None? {
          if |readers| == 0 {
            return;
          }
          cur := Some(readers[0]);
          readers := readers[1..];
        }
        ghost var left, more := cur.value, AllRecords(readers);
        var s := ReadString();
        if s != "" {
          nextNL := s[|s| - 1] == '\n';
          next := if nextNL then s[..|s| - 1] else s;
          hasNext := true;
          Assoc([AsRecord(s)], Records(cur.value), more);
          return;
        }
        cur := None;
      }
    }

    /** The next line; ok is false when there is none. */
    method Read() returns (s: string, nl: bool, ok: bool)
      requires Valid()
      modifies this
      ensures Valid()
      ensures ok == (old(Rest()) != [])
      ensures ok ==> old(Rest()) == [Record(s, nl)] + Rest() && line == old(line) + 1
      ensures !ok ==> Rest() == [] && line == old(line) && s == ""
    {
      if !hasNext {
        return "", false, false;
      }
      s, nl := next, nextNL;
      Advance();
      line := line + 1;
      ok := true;
    }
  }

  /** What has been written, and whether the newline of the last record is still owed. */
  datatype Written = Written(text: string, missingNL: bool) {

    function Write(s: string): Written {
      Written(text + (if missingNL then "\n" else "") + s, false)
    }

    function Line(s: string, nl: bool): Written {
      if nl then Write(s).Write("\n") else Write(s).(missingNL := true)
    }
  }

  class Output {
    var w: string
    var missingNL: bool

    ghost function State(): Written
      reads this
    {
      Written(w, missingNL)
    }

    constructor ()
      ensures State() == Written("", false)
    {
      w, missingNL := "", false;
    }

    method Write(s: string)
      modifies this
      ensures State() == old(State()).Write(s)
    {
      if missingNL {
        missingNL := false;
        w := w + "\n";
      }
      w := w + s;
    }

    method Line(s: string, nl: bool)
      modifies this
      ensures State() == old(State()).Line(s, nl)
    {
      Write(s);
      if nl {
        Write("\n");
      } else {
        missingNL := true;
      }
    }
  }

  /** Records printed one after another. */
  function PrintAll(out: Written, rs: seq<Record>): Written
    decreases |rs|
  {
    if rs == [] then out else PrintAll(out.Line(rs[0].text, rs[0].nl), rs[1..])
  }

  /** The text of records with every newline in place but the last, which is as it was read. */
  function Terminated(rs: seq<Record>): string {
    if rs == [] then ""
    else if |rs| == 1 then Text(rs[0])
    else rs[0].text + "\n" + Terminated(rs[1..])
  }

  lemma {:induction false} PrintAllText(out: Written, rs: seq<Record>)
    requires rs != []
    ensures PrintAll(out, rs).text == out.text + (if out.missingNL then "\n" else "") + Terminated(rs)
    ensures PrintAll(out, rs).missingNL == !rs[|rs| - 1].nl
    decreases |rs|
  {
    var d := out.Line(rs[0].text, rs[0].nl);
    var front := out.text + if out.missingNL then "\n" else "";
    LineText(out, rs[0]);
    if |rs| == 1 {
      assert PrintAll(d, rs[1..]) == d;
    } else {
      PrintAllText(d, rs[1..]);
      ThenRest(front, rs[0], Terminated(rs[1..]));
    }
  }

  lemma LineText(out: Written, r: Record)
    ensures out.Line(r.text, r.nl).text == out.text + (if out.missingNL then "\n" else "") + Text(r)
    ensures out.Line(r.text, r.nl).missingNL == !r.nl
  {
  }

  /** The newline a line lacked is written before the next. */
  lemma ThenRest(front: string, r: Record, rest: string)
    ensures front + Text(r) + (if r.nl then "" else "\n") + rest == front + (r.text + "\n" + rest)
  {
  }

  /** The readers' text, with a newline added after each that lacks one and has lines after it. */
  function Joined(readers: seq<string>): string {
    if readers == [] then ""
    else
      var rest := Joined(readers[1..]);
      readers[0] +
      (if readers[0] != "" && readers[0][|readers[0]| - 1] != '\n' && rest != "" then "\n" else "") + rest
  }

  lemma TerminatedCons(r: Record, rs: seq<Record>)
    requires rs != []
    ensures Terminated([r] + rs) == (r.text + "\n") + Terminated(rs)
  {
    assert ([r] + rs)[1..] == rs;
  }

  lemma {:induction false} TerminatedAppend(a: seq<Record>, b: seq<Record>)
    requires b != []
    requires forall k :: 0 <= k < |a| - 1 ==> a[k].nl
    ensures Terminated(a + b) == Flatten(a) + (if a != [] && !a[|a| - 1].nl then "\n" else "") + Terminated(b)
    decreases |a|
  {
    hide Terminated;
    if a == [] {
      assert a + b == b;
      assert "" + "" + Terminated(b) == Terminated(b);
    } else {
      var tail := a[1..];
      var owed := if !a[|a| - 1].nl then "\n" else "";
      TerminatedAppend(tail, b);
      assert a == [a[0]] + tail && [a[0]] + tail + b == [a[0]] + (tail + b);
      TerminatedCons(a[0], tail + b);
      FlattenCons(a[0], tail);
      if tail == [] {
        OneRecord(a[0], Terminated(b));
      } else {
        Assoc(Text(a[0]), Flatten(tail) + owed, Terminated(b));
        Assoc(Text(a[0]), Flatten(tail), owed);
      }
    }
  }

  lemma OneRecord(r: Record, rest: string)
    ensures (r.text + "\n") + ("" + "" + rest) == Text(r) + "" + (if !r.nl then "\n" else "") + rest
  {
  }

  lemma {:induction false} TerminatedOne(a: seq<Record>)
    requires forall k :: 0 <= k < |a| - 1 ==> a[k].nl
    ensures Terminated(a) == Flatten(a)
    decreases |a|
  {
    if |a| == 1 {
      assert Flatten(a) == Text(a[0]) + "";
    } else if |a| > 1 {
      TerminatedOne(a[1..]);
    }
  }

  lemma RecordsOf(s: string)
    requires s != ""
    ensures NewlineAt(s, 0) == |s| ==> Records(s) == [Record(s, false)]
    ensures NewlineAt(s, 0) < |s| ==>
      Records(s) == [Record(s[..NewlineAt(s, 0)], true)] + Records(s[NewlineAt(s, 0) + 1..])
  {
  }

  /** A reader's text ends as its last record does. */
  lemma {:induction false} LastRecord(s: string)
    requires s != ""
    ensures Records(s) != []
    ensures Records(s)[|Records(s)| - 1].nl <==> s[|s| - 1] == '\n'
    decreases |s|
  {
    hide Records;
    var i := NewlineAt(s, 0);
    RecordsOf(s);
    RecordsNil();
    if i < |s| && s[i + 1..] != "" {
      LastRecord(s[i + 1..]);
      RecordsOf(s[i + 1..]);
    }
  }

  /** The records of one reader, printed before what comes after it. */
  lemma OneReader(s: string, b: seq<Record>)
    requires s != ""
    ensures Records(s) != []
    ensures b == [] ==> Terminated(Records(s) + b) == s
    ensures b != [] ==> Terminated(Records(s) + b) == s + (if s[|s| - 1] != '\n' then "\n" else "") + Terminated(b)
  {
    hide Records;
    var a := Records(s);
    LastRecord(s);
    RecordsFlatten(s);
    forall k | 0 <= k < |a| - 1
      ensures a[k].nl
    {
      if !a[k].nl { OnlyLastUnterminated(s, k); }
    }
    if b == [] {
      assert a + b == a;
      TerminatedOne(a);
    } else {
      TerminatedAppend(a, b);
    }
  }

  /** Printing every line of the readers gives their text back, with only the newlines missing between
      readers added. */
  lemma {:induction false} LinesReproduceReaders(readers: seq<string>)
    ensures Terminated(AllRecords(readers)) == Joined(readers)
    ensures AllRecords(readers) == [] <==> Joined(readers) == ""
    decreases |readers|
  {
    hide Records, Terminated;
    TerminatedNone();
    if readers != [] {
      var s, b := readers[0], AllRecords(readers[1..]);
      LinesReproduceReaders(readers[1..]);
      if s == "" {
        RecordsNil();
        assert [] + b == b && "" + "" + Joined(readers[1..]) == Joined(readers[1..]);
      } else {
        OneReader(s, b);
        assert s + "" + "" == s;
      }
    }
  }

  lemma TerminatedNone()
    ensures Terminated([]) == ""
  {
  }
}
