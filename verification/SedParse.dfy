/** How sed's parser flattens a script (shell/sed/parse.go): nested blocks and labels become indices into one
    list of commands. Commands come here already lexed, each with its addresses, name and argument. */
module SedParse {
  import opened SedRange
  import opened Wrappers

  /** A regular expression, by its text; an empty one stands for the last used. */
  type Pattern = string

  datatype Substitution = Substitution(re: Pattern, repl: string, global: bool, nth: nat, show: bool, wfile: string)

  datatype Command = Command(a1: Address, re1: Pattern, a2: Address, re2: Pattern, negate: bool, name: char,
                             text: string, sub: Substitution, ymap: map<char, char>, code: nat, block: nat)

  datatype Error =
    | ZeroAddress(at: nat) | LabelWithAddress(at: nat) | EmptyLabel(at: nat)
    | CloseWithAddress(at: nat) | UnexpectedClose(at: nat) | UnmatchedOpen
    | DuplicateLabel(name: string) | UnknownLabel(name: string)

  predicate IsBranch(c: Command) {
    c.name == 'b' || c.name == 't' || c.name == 'T'
  }

  /** What is wrong with one command by itself. */
  function Defect(c: Command, i: nat): Option<Error> {
    if c.a1.Zero? && !c.a2.Regex? then Some(ZeroAddress(i))
    else if c.name == ':' && !c.a1.NoAddress? then Some(LabelWithAddress(i))
    else if c.name == ':' && c.text == "" then Some(EmptyLabel(i))
    else if c.name == '}' && !c.a1.NoAddress? then Some(CloseWithAddress(i))
    else None
  }

  /** The address 0 needs a regular expression for the second; : and } take no address, and : needs a name. */
  lemma DefectMeans(c: Command, i: nat)
    ensures
      var zero := c.a1 == Zero && c.a2 != Regex;
      var addressed := c.a1 != NoAddress;
      Defect(c, i) ==
      if zero then Some(ZeroAddress(i))
      else if c.name == ':' && addressed then Some(LabelWithAddress(i))
      else if c.name == ':' && c.text == "" then Some(EmptyLabel(i))
      else if c.name == '}' && addressed then Some(CloseWithAddress(i))
      else None
  {
  }

  // ---- what the indices should be ----

  /** The } that closes the block which line i is d blocks inside of. */
  function CloseOf(cs: seq<Command>, i: nat, d: nat): (j: Option<nat>)
    requires i <= |cs|
    ensures j.Some? ==> i <= j.value < |cs| && cs[j.value].name == '}'
    decreases |cs| - i
  {
    if i == |cs| then None
    else if cs[i].name == '{' then CloseOf(cs, i + 1, d + 1)
    else if cs[i].name == '}' then (if d == 0 then Some(i) else CloseOf(cs, i + 1, d - 1))
    else CloseOf(cs, i + 1, d)
  }

  /** From depth d, every } closes a block and every block is closed. */
  predicate Balanced(cs: seq<Command>, i: nat, d: nat)
    requires i <= |cs|
    decreases |cs| - i
  {
    if i == |cs| then d == 0
    else if cs[i].name == '{' then Balanced(cs, i + 1, d + 1)
    else if cs[i].name == '}' then d > 0 && Balanced(cs, i + 1, d - 1)
    else Balanced(cs, i + 1, d)
  }

  predicate IsLabel(cs: seq<Command>, i: nat, name: string) {
    i < |cs| && cs[i].name == ':' && cs[i].text == name
  }

  ghost predicate LabelsDistinct(cs: seq<Command>) {
    forall i, j :: 0 <= i < j < |cs| && cs[i].name == ':' && cs[j].name == ':' ==> cs[i].text != cs[j].text
  }

  ghost predicate LabelsKnown(cs: seq<Command>) {
    forall i :: 0 <= i < |cs| && IsBranch(cs[i]) && cs[i].text != "" ==> exists j :: IsLabel(cs, j, cs[i].text)
  }

  ghost predicate Acceptable(cs: seq<Command>) {
    && (forall i :: 0 <= i < |cs| ==> Defect(cs[i], i) == None)
    && Balanced(cs, 0, 0) && LabelsDistinct(cs) && LabelsKnown(cs)
  }

  /** Where command i leads: a { to its }, a branch to its label or past the end. */
  ghost predicate Leads(cs: seq<Command>, i: nat, block: nat)
    requires i < |cs|
  {
    && (cs[i].name == '{' ==> CloseOf(cs, i + 1, 0) == Some(block))
    && (IsBranch(cs[i]) ==> if cs[i].text == "" then block == |cs| else IsLabel(cs, block, cs[i].text))
    && (cs[i].name != '{' && !IsBranch(cs[i]) ==> block == cs[i].block)
  }

  /** The flattened script: the same commands, with their blocks filled in. */
  ghost predicate Flattened(cs: seq<Command>, out: seq<Command>) {
    && |out| == |cs|
    && forall i :: 0 <= i < |cs| ==> out[i] == cs[i].(block := out[i].block) && Leads(cs, i, out[i].block)
  }

  // ---- the parser ----

  /** What the stack of open blocks knows after i commands: the one d from the top is closed where d inner
      blocks have been. */
  ghost predicate OpenValid(cs: seq<Command>, i: nat, open: seq<nat>)
    requires i <= |cs|
  {
    forall k :: 0 <= k < |open| ==>
      open[k] < i && cs[open[k]].name == '{' && CloseOf(cs, open[k] + 1, 0) == CloseOf(cs, i, |open| - 1 - k)
  }

  /** Blocks already closed point at their }. */
  ghost predicate ClosedValid(cs: seq<Command>, i: nat, open: seq<nat>, out: seq<Command>)
    requires i <= |cs|
  {
    |out| == i && forall k :: 0 <= k < i ==> ClosedAt(cs, k, k in open, out[k])
  }

  /** Command k as it is in the list, its block still open or not. */
  predicate ClosedAt(cs: seq<Command>, k: nat, isOpen: bool, c: Command)
    requires k < |cs|
  {
    && c == cs[k].(block := c.block)
    && (cs[k].name == '{' && !isOpen ==> CloseOf(cs, k + 1, 0) == Some(c.block))
    && (cs[k].name != '{' ==> c == cs[k])
  }

  /** The parser's state after i commands: which blocks are open, and the list so far. */
  ghost predicate Nested(cs: seq<Command>, i: nat, open: seq<nat>, out: seq<Command>)
    requires i <= |cs|
  {
    && OpenValid(cs, i, open) && ClosedValid(cs, i, open, out)
    && (forall j, k :: 0 <= j < k < |open| ==> open[j] < open[k])
    && Balanced(cs, 0, 0) == Balanced(cs, i, |open|)
  }

  lemma PushKeeps(cs: seq<Command>, i: nat, open: seq<nat>, out: seq<Command>)
    requires i < |cs| && Nested(cs, i, open, out) && cs[i].name == '{'
    ensures Nested(cs, i + 1, open + [i], out + [cs[i]])
  {
    hide OpenValid, ClosedValid;
    PushOpen(cs, i, open);
    PushClosed(cs, i, open, out);
    OpenBefore(cs, i, open);
  }

  lemma OpenBefore(cs: seq<Command>, i: nat, open: seq<nat>)
    requires i <= |cs| && OpenValid(cs, i, open)
    ensures forall k :: 0 <= k < |open| ==> open[k] < i
  {
    hide CloseOf;
  }

  lemma PushOpen(cs: seq<Command>, i: nat, open: seq<nat>)
    requires i < |cs| && OpenValid(cs, i, open) && cs[i].name == '{'
    ensures OpenValid(cs, i + 1, open + [i])
  {
    hide CloseOf;
    forall k | 0 <= k < |open| ensures CloseOf(cs, open[k] + 1, 0) == CloseOf(cs, i + 1, |open| - k) {
      OpenAt(cs, i, |open| - 1 - k);
    }
  }

  lemma OpenAt(cs: seq<Command>, i: nat, depth: nat)
    requires i < |cs| && cs[i].name == '{'
    ensures CloseOf(cs, i, depth) == CloseOf(cs, i + 1, depth + 1)
  {
  }

  lemma PushClosed(cs: seq<Command>, i: nat, open: seq<nat>, out: seq<Command>)
    requires i < |cs| && ClosedValid(cs, i, open, out) && cs[i].name == '{'
    ensures ClosedValid(cs, i + 1, open + [i], out + [cs[i]])
  {
    hide CloseOf;
    assert forall k :: k in open + [i] <==> k == i || k in open;
  }

  lemma CloseAt(cs: seq<Command>, i: nat, depth: nat)
    requires i < |cs| && cs[i].name == '}'
    ensures CloseOf(cs, i, depth) == if depth == 0 then Some(i) else CloseOf(cs, i + 1, depth - 1)
  {
  }

  lemma PopOpen(cs: seq<Command>, i: nat, open: seq<nat>)
    requires i < |cs| && OpenValid(cs, i, open) && cs[i].name == '}' && open != []
    ensures OpenValid(cs, i + 1, open[..|open| - 1])
    ensures CloseOf(cs, open[|open| - 1] + 1, 0) == Some(i) && cs[open[|open| - 1]].name == '{'
  {
    hide CloseOf;
    CloseAt(cs, i, 0);
    forall k | 0 <= k < |open| - 1
      ensures CloseOf(cs, open[k] + 1, 0) == CloseOf(cs, i + 1, |open| - 2 - k)
    {
      CloseAt(cs, i, |open| - 1 - k);
    }
  }

  lemma PopClosed(cs: seq<Command>, i: nat, open: seq<nat>, out: seq<Command>, top: nat)
    requires i < |cs| && ClosedValid(cs, i, open + [top], out) && cs[i].name == '}' && top < i && top !in open
    requires CloseOf(cs, top + 1, 0) == Some(i) && cs[top].name == '{'
    ensures ClosedValid(cs, i + 1, open, out[top := out[top].(block := i)] + [cs[i]])
  {
    hide CloseOf;
    var out' := out[top := out[top].(block := i)] + [cs[i]];
    forall k | 0 <= k < i + 1 ensures ClosedAt(cs, k, k in open, out'[k]) {
      if k < i {
        assert k in open + [top] <==> k == top || k in open;
        assert ClosedAt(cs, k, k in open + [top], out[k]);
      }
    }
  }

  lemma PopKeeps(cs: seq<Command>, i: nat, open: seq<nat>, out: seq<Command>)
    requires i < |cs| && Nested(cs, i, open, out) && cs[i].name == '}' && open != []
    ensures open[|open| - 1] < |out|
    ensures var top := open[|open| - 1];
      Nested(cs, i + 1, open[..|open| - 1], out[top := out[top].(block := i)] + [cs[i]])
  {
    hide CloseOf;
    var top, open' := open[|open| - 1], open[..|open| - 1];
    PopOpen(cs, i, open);
    assert open == open' + [top] && top !in open';
    PopClosed(cs, i, open', out, top);
  }

  lemma PlainKeeps(cs: seq<Command>, i: nat, open: seq<nat>, out: seq<Command>)
    requires i < |cs| && Nested(cs, i, open, out) && cs[i].name != '{' && cs[i].name != '}'
    ensures Nested(cs, i + 1, open, out + [cs[i]])
  {
  }

  lemma NestedEnds(cs: seq<Command>, open: seq<nat>, out: seq<Command>)
    requires Nested(cs, |cs|, open, out)
    ensures Balanced(cs, 0, 0) <==> open == []
    ensures ClosedValid(cs, |cs|, open, out)
  {
  }

  lemma NestedStuck(cs: seq<Command>, i: nat, out: seq<Command>)
    requires i < |cs| && Nested(cs, i, [], out) && cs[i].name == '}'
    ensures !Balanced(cs, 0, 0)
  {
  }

  method Nest(cs: seq<Command>) returns (r: Result<seq<Command>, Error>)
    ensures r.Ok? <==> (forall i :: 0 <= i < |cs| ==> Defect(cs[i], i) == None) && Balanced(cs, 0, 0)
    ensures r.Ok? ==> ClosedValid(cs, |cs|, [], r.value)
  {
    var open: seq<nat> := [];
    var out: seq<Command> := [];
    NestedBegins(cs);
    hide Nested, ClosedValid, Defect, Balanced;
    for i := 0 to |cs|
      invariant forall k :: 0 <= k < i ==> Defect(cs[k], k) == None
      invariant Nested(cs, i, open, out)
    {
      var c := cs[i];
      var defect := Defect(c, i);
      if defect.Some? {
        return Err(defect.value);
      }
      if c.name == '{' {
        PushKeeps(cs, i, open, out);
        open := open + [i];
      } else if c.name == '}' {
        if |open| == 0 {
          NestedStuck(cs, i, out);
          return Err(UnexpectedClose(i));
        }
        PopKeeps(cs, i, open, out);
        var top := open[|open| - 1];
        out := out[top := out[top].(block := i)];
        open := open[..|open| - 1];
      } else {
        PlainKeeps(cs, i, open, out);
      }
      out := out + [c];
    }
    NestedEnds(cs, open, out);
    if |open| > 0 {
      return Err(UnmatchedOpen);
    }
    return Ok(out);
  }

  lemma NestedBegins(cs: seq<Command>)
    ensures Nested(cs, 0, [], [])
  {
  }

  method Labels(cs: seq<Command>) returns (r: Result<map<string, nat>, Error>)
    ensures r.Ok? <==> LabelsDistinct(cs)
    ensures r.Ok? ==> forall s :: s in r.value ==> IsLabel(cs, r.value[s], s)
    ensures r.Ok? ==> forall j :: 0 <= j < |cs| && cs[j].name == ':' ==> cs[j].text in r.value
  {
    var labels: map<string, nat> := map[];
    for i := 0 to |cs|
      invariant forall s :: s in labels ==> labels[s] < i && IsLabel(cs, labels[s], s)
      invariant forall j :: 0 <= j < i && cs[j].name == ':' ==> cs[j].text in labels
      invariant LabelsDistinct(cs[..i])
    {
      if cs[i].name == ':' {
        if cs[i].text in labels {
          assert IsLabel(cs, labels[cs[i].text], cs[i].text);
          return Err(DuplicateLabel(cs[i].text));
        }
        labels := labels[cs[i].text := i];
      }
    }
    assert cs[..|cs|] == cs;
    return Ok(labels);
  }

  /** The branches among the first i commands lead where they should. */
  ghost predicate Resolved(cs: seq<Command>, nested: seq<Command>, i: nat, out: seq<Command>) {
    && |out| == |cs| == |nested|
    && (forall k :: 0 <= k < |cs| ==> out[k] == cs[k].(block := out[k].block))
    && (forall k :: 0 <= k < |cs| && !IsBranch(cs[k]) ==> out[k] == nested[k])
    && (forall k :: 0 <= k < i && k < |cs| ==> Leads(cs, k, out[k].block))
    && (forall k :: 0 <= k < i && k < |cs| && IsBranch(cs[k]) && cs[k].text != "" ==>
          exists j :: IsLabel(cs, j, cs[k].text))
  }

  lemma SkipResolves(cs: seq<Command>, nested: seq<Command>, i: nat, out: seq<Command>)
    requires i < |cs| && Resolved(cs, nested, i, out) && !IsBranch(cs[i]) && ClosedValid(cs, |cs|, [], nested)
    ensures Resolved(cs, nested, i + 1, out)
  {
    assert out[i] == nested[i];
  }

  lemma BranchResolves(cs: seq<Command>, nested: seq<Command>, i: nat, out: seq<Command>, block: nat)
    requires i < |cs| && Resolved(cs, nested, i, out) && IsBranch(cs[i])
    requires if cs[i].text == "" then block == |cs| else IsLabel(cs, block, cs[i].text)
    ensures Resolved(cs, nested, i + 1, out[i := out[i].(block := block)])
  {
  }

  method Resolve(cs: seq<Command>, nested: seq<Command>, labels: map<string, nat>) returns (r: Result<seq<Command>,
        Error>)
    requires ClosedValid(cs, |cs|, [], nested)
    requires forall s :: s in labels ==> IsLabel(cs, labels[s], s)
    requires forall j :: 0 <= j < |cs| && cs[j].name == ':' ==> cs[j].text in labels
    ensures r.Ok? <==> LabelsKnown(cs)
    ensures r.Ok? ==> Flattened(cs, r.value)
  {
    hide Resolved, ClosedValid, Leads;
    var out := nested;
    ResolvedFacts(cs, nested);
    for i := 0 to |cs|
      invariant |out| == |cs| && Resolved(cs, nested, i, out)
    {
      var c := out[i];
      ResolvedCommand(cs, nested, i, out);
      if c.name == 'b' || c.name == 't' || c.name == 'T' {
        if c.text == "" {
          BranchResolves(cs, nested, i, out, |out|);
          out := out[i := c.(block := |out|)];
        } else {
          if c.text !in labels {
            assert forall j :: !IsLabel(cs, j, c.text);
            assert !LabelsKnown(cs);
            return Err(UnknownLabel(c.text));
          }
          BranchResolves(cs, nested, i, out, labels[c.text]);
          out := out[i := c.(block := labels[c.text])];
        }
      } else {
        SkipResolves(cs, nested, i, out);
      }
    }
    ResolvedEnds(cs, nested, out);
    return Ok(out);
  }

  lemma ResolvedFacts(cs: seq<Command>, nested: seq<Command>)
    requires ClosedValid(cs, |cs|, [], nested)
    ensures |nested| == |cs| && Resolved(cs, nested, 0, nested)
  {
  }

  lemma ResolvedCommand(cs: seq<Command>, nested: seq<Command>, i: nat, out: seq<Command>)
    requires Resolved(cs, nested, i, out) && i < |cs|
    ensures out[i] == cs[i].(block := out[i].block)
  {
  }

  lemma ResolvedEnds(cs: seq<Command>, nested: seq<Command>, out: seq<Command>)
    requires Resolved(cs, nested, |cs|, out)
    ensures LabelsKnown(cs) && Flattened(cs, out)
  {
  }

  /** parse: accepted are exactly the scripts whose blocks are balanced, whose labels are distinct and whose
      branches have a target; every { then points at its } and every branch at its label or the end. */
  method Parse(cs: seq<Command>) returns (r: Result<seq<Command>, Error>)
    ensures r.Ok? <==> Acceptable(cs)
    ensures r.Ok? ==> Flattened(cs, r.value)
  {
    hide Balanced, Flattened, LabelsKnown, LabelsDistinct, Defect;
    var nested := Nest(cs);
    if nested.Err? {
      return nested;
    }
    SameLabels(cs, nested.value);
    var labels := Labels(nested.value);
    if labels.Err? {
      return Err(labels.error);
    }
    r := Resolve(cs, nested.value, labels.value);
  }

  lemma SameLabels(cs: seq<Command>, nested: seq<Command>)
    requires ClosedValid(cs, |cs|, [], nested)
    ensures LabelsDistinct(nested) == LabelsDistinct(cs)
    ensures forall i: nat, s :: IsLabel(nested, i, s) <==> IsLabel(cs, i, s)
    ensures |nested| == |cs| && forall i :: 0 <= i < |cs| ==>
      nested[i].name == cs[i].name && nested[i].text == cs[i].text
  {
    hide CloseOf;
    forall i | 0 <= i < |cs| ensures nested[i].name == cs[i].name && nested[i].text == cs[i].text {
      assert ClosedAt(cs, i, i in [], nested[i]);
    }
  }

  // ---- what the indices mean ----

  /** In an accepted script b, t and T lead past the end, or to the one : that has their name; nothing else of a command
      changes, and of no command but these and {. */
  lemma BranchesMean(cs: seq<Command>, cmds: seq<Command>, i: nat)
    requires Acceptable(cs) && Flattened(cs, cmds) && i < |cs|
    ensures cmds[i] == cs[i].(block := cmds[i].block)
    ensures cs[i].name != '{' && cs[i].name != 'b' && cs[i].name != 't' && cs[i].name != 'T' ==> cmds[i] == cs[i]
    ensures cs[i].name == 'b' || cs[i].name == 't' || cs[i].name == 'T' ==>
      if cs[i].text == "" then cmds[i].block == |cs|
      else
        forall j :: 0 <= j < |cs| ==>
          (cs[j].name == ':' && cs[j].text == cs[i].text <==> j == cmds[i].block)
  {
    hide Balanced, Defect, CloseOf;
    assert Leads(cs, i, cmds[i].block);
  }

  /** In a balanced script every block has its }. */
  lemma {:induction false} BlocksClose(cs: seq<Command>, i: nat, d: nat, k: nat)
    requires i <= |cs| && Balanced(cs, i, d) && k < d
    ensures CloseOf(cs, i, k).Some?
    decreases |cs| - i
  {
    if i < |cs| {
      if cs[i].name == '{' {
        BlocksClose(cs, i + 1, d + 1, k + 1);
      } else if cs[i].name == '}' {
        if k > 0 { BlocksClose(cs, i + 1, d - 1, k - 1); }
      } else {
        BlocksClose(cs, i + 1, d, k);
      }
    }
  }

  /** Blocks nest: one that opens inside another closes inside it. */
  lemma {:induction false} BlocksNest(cs: seq<Command>, i: nat, d: nat, k: nat)
    requires i <= |cs| && k < d && CloseOf(cs, i, d).Some?
    ensures CloseOf(cs, i, k).Some? && CloseOf(cs, i, k).value < CloseOf(cs, i, d).value
    decreases |cs| - i
  {
    if cs[i].name == '{' {
      BlocksNest(cs, i + 1, d + 1, k + 1);
    } else if cs[i].name == '}' {
      if k > 0 { BlocksNest(cs, i + 1, d - 1, k - 1); }
    } else {
      BlocksNest(cs, i + 1, d, k);
    }
  }
}
