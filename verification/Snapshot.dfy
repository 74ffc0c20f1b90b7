/** The page's filesystem saved and restored (docs/jsfs.js, serialize and applySnapshot): a snapshot leaves
    excluded paths out, and restoring one leaves them as the new load made them. */
module Snapshot {
  import opened Wrappers

  type Bytes = seq<bv8>
  type Path = seq<string>

  datatype Node =
    | Dir(mode: nat, mtime: nat, entries: map<string, Node>)
    | File(mode: nat, mtime: nat, data: Bytes)
    | Link(mode: nat, mtime: nat, target: string)
    | Device(mode: nat, mtime: nat)

  /** A node by itself, what is in a directory left out. */
  function Bare(n: Node): Node {
    if n.Dir? then n.(entries := map[]) else n
  }

  function Lookup(n: Node, p: Path): Option<Node>
    decreases |p|
  {
    if p == [] then Some(n)
    else if n.Dir? && p[0] in n.entries then Lookup(n.entries[p[0]], p[1..])
    else None
  }

  /** What is at a path. */
  function At(n: Node, p: Path): Option<Node> {
    match Lookup(n, p) case None => None case Some(m) => Some(Bare(m))
  }

  predicate IsDirAt(n: Node, p: Path) {
    At(n, p).Some? && At(n, p).value.Dir?
  }

  /** Is the path, or one above it, excluded? */
  ghost predicate Under(excluded: Path -> bool, p: Path) {
    exists k :: 0 < k <= |p| && excluded(p[..k])
  }

  datatype Entry = Entry(p: Path, node: Node)

  // ---- serialize ----

  /** Is p a path below base that a snapshot records? */
  ghost predicate Saved(root: Node, excluded: Path -> bool, p: Path) {
    p != [] && At(root, p).Some? && !Under(excluded, p)
  }

  /** Every saved path strictly below base is in out with what is there, parents before children, and nothing
      else. */
  ghost predicate Serialized(root: Node, excluded: Path -> bool, base: Path, out: seq<Entry>) {
    && (forall i :: 0 <= i < |out| ==>
        base < out[i].p && Saved(root, excluded, out[i].p) && At(root, out[i].p) == Some(out[i].node))
    && (forall p :: base < p && Saved(root, excluded, p) ==> Lists(out, p))
    && (forall i, k :: 0 <= i < |out| && |base| < k < |out[i].p| ==> Lists(out[..i], out[i].p[..k]))
  }

  ghost predicate Lists(out: seq<Entry>, p: Path) {
    exists i :: 0 <= i < |out| && out[i].p == p
  }

  lemma {:induction false} LookupBelow(n: Node, p: Path, q: Path)
    ensures Lookup(n, p + q) == match Lookup(n, p) case None => None case Some(m) => Lookup(m, q)
    decreases |p|
  {
    if p == [] {
      assert p + q == q;
    } else {
      assert (p + q)[0] == p[0] && (p + q)[1..] == p[1..] + q;
      if n.Dir? && p[0] in n.entries {
        LookupBelow(n.entries[p[0]], p[1..], q);
      }
    }
  }

  /** Whatever is above something is a directory. */
  lemma AboveIsDir(n: Node, p: Path, k: nat)
    requires k < |p| && At(n, p).Some?
    ensures IsDirAt(n, p[..k])
  {
    assert p == p[..k] + p[k..];
    LookupBelow(n, p[..k], p[k..]);
  }

  /** What has been serialized of a directory when the names in done have been gone through. */
  ghost predicate Partly(root: Node, excluded: Path -> bool, base: Path, done: set<string>, out: seq<Entry>) {
    && (forall i :: 0 <= i < |out| ==>
        base < out[i].p && Saved(root, excluded, out[i].p) && At(root, out[i].p) == Some(out[i].node))
    && (forall p :: base < p && p[|base|] in done && Saved(root, excluded, p) ==> Lists(out, p))
    && (forall i, k :: 0 <= i < |out| && |base| < k < |out[i].p| ==> Lists(out[..i], out[i].p[..k]))
  }

  lemma ListsMore(a: seq<Entry>, b: seq<Entry>, p: Path)
    ensures Lists(a + b, p) <==> Lists(a, p) || Lists(b, p)
  {
    if Lists(a, p) {
      var i :| 0 <= i < |a| && a[i].p == p;
      assert (a + b)[i].p == p;
    }
    if Lists(b, p) {
      var i :| 0 <= i < |b| && b[i].p == p;
      assert (a + b)[|a| + i].p == p;
    }
  }

  /** An excluded name, and everything below it, is saved nowhere. */
  lemma ExcludedName(root: Node, excluded: Path -> bool, base: Path, done: set<string>, out: seq<Entry>, name: string)
    requires Partly(root, excluded, base, done, out) && excluded(base + [name])
    ensures Partly(root, excluded, base, done + {name}, out)
  {
    forall p: Path | base < p && p[|base|] == name
      ensures Under(excluded, p)
    {
      assert p[..|base| + 1] == base + [name];
    }
  }

  /** What is saved below a name that is saved itself. */
  ghost predicate Below(root: Node, excluded: Path -> bool, q: Path, node: Node, sub: seq<Entry>) {
    && Saved(root, excluded, q) && Lookup(root, q) == Some(node)
    && (if node.Dir? then Serialized(root, excluded, q, sub) else sub == [])
  }

  lemma NameListed(root: Node, excluded: Path -> bool, base: Path, done: set<string>, out: seq<Entry>, name: string,
                   node: Node, sub: seq<Entry>, p: Path)
    requires Partly(root, excluded, base, done, out) && Below(root, excluded, base + [name], node, sub)
    requires base < p && p[|base|] in done + {name} && Saved(root, excluded, p)
    ensures Lists(out + [Entry(base + [name], Bare(node))] + sub, p)
  {
    var q := base + [name];
    var one := [Entry(q, Bare(node))];
    ListsMore(out + one, sub, p);
    ListsMore(out, one, p);
    if p[|base|] == name {
      assert p[..|q|] == q;
      if p == q {
        assert one[0].p == q;
      } else {
        assert p == q + p[|q|..];
        LookupBelow(root, q, p[|q|..]);
      }
    }
  }

  lemma NameParents(root: Node, excluded: Path -> bool, base: Path, done: set<string>, out: seq<Entry>, name: string,
                    node: Node, sub: seq<Entry>, i: nat, k: nat)
    requires Partly(root, excluded, base, done, out) && Below(root, excluded, base + [name], node, sub)
    requires var all := out + [Entry(base + [name], Bare(node))] + sub; i < |all| && |base| < k < |all[i].p|
    ensures var all := out + [Entry(base + [name], Bare(node))] + sub; Lists(all[..i], all[i].p[..k])
  {
    var q := base + [name];
    var one := [Entry(q, Bare(node))];
    var all := out + one + sub;
    if i < |out| {
      assert all[..i] == out[..i] && all[i] == out[i];
    } else if i > |out| {
      var j := i - |out| - 1;
      assert all[i] == sub[j] && all[..i] == out + one + sub[..j];
      assert sub[j].p[..|q|] == q;
      ListsMore(out + one, sub[..j], sub[j].p[..k]);
      ListsMore(out, one, sub[j].p[..k]);
      assert one[0].p == q;
      if k > |q| {
        assert Lists(sub[..j], sub[j].p[..k]);
      } else {
        assert sub[j].p[..k] == q;
      }
    }
  }

  /** A name that is saved, and what is saved below it. */
  lemma SavedName(root: Node, excluded: Path -> bool, base: Path, done: set<string>, out: seq<Entry>, name: string,
                  node: Node, sub: seq<Entry>)
    requires Partly(root, excluded, base, done, out) && Below(root, excluded, base + [name], node, sub)
    ensures Partly(root, excluded, base, done + {name}, out + [Entry(base + [name], Bare(node))] + sub)
  {
    hide Lists;
    var all := out + [Entry(base + [name], Bare(node))] + sub;
    forall p | base < p && p[|base|] in done + {name} && Saved(root, excluded, p)
      ensures Lists(all, p)
    {
      NameListed(root, excluded, base, done, out, name, node, sub, p);
    }
    forall i, k | 0 <= i < |all| && |base| < k < |all[i].p|
      ensures Lists(all[..i], all[i].p[..k])
    {
      NameParents(root, excluded, base, done, out, name, node, sub, i, k);
    }
    forall i | 0 <= i < |all|
      ensures base < all[i].p && Saved(root, excluded, all[i].p) && At(root, all[i].p) == Some(all[i].node)
    {
      if i > |out| {
        assert all[i] == sub[i - |out| - 1];
      }
    }
  }

  lemma AllNames(root: Node, excluded: Path -> bool, base: Path, node: Node, out: seq<Entry>)
    requires Lookup(root, base) == Some(node) && node.Dir? && Partly(root, excluded, base, node.entries.Keys, out)
    ensures Serialized(root, excluded, base, out)
  {
    forall p | base < p && Saved(root, excluded, p)
      ensures Lists(out, p)
    {
      assert p == base + p[|base|..];
      LookupBelow(root, base, p[|base|..]);
    }
  }

  /** serialize's walk over the directory at base. A directory's names come in any order. */
  method Walk(ghost root: Node, excluded: Path -> bool, node: Node, base: Path) returns (out: seq<Entry>)
    requires Lookup(root, base) == Some(node) && node.Dir? && !Under(excluded, base)
    ensures Serialized(root, excluded, base, out)
    decreases node
  {
    hide Partly, Serialized, Under, Saved, Lists;
    out := [];
    var names := node.entries.Keys;
    NoNames(root, excluded, base);
    assert node.entries.Keys - names == {};
    while names != {}
      invariant names <= node.entries.Keys
      invariant Partly(root, excluded, base, node.entries.Keys - names, out)
      decreases names
    {
      var name :| name in names;
      ghost var done := node.entries.Keys - names;
      names := names - {name};
      assert node.entries.Keys - names == done + {name};
      var p := base + [name];
      if excluded(p) {
        ExcludedName(root, excluded, base, done, out, name);
        continue;
      }
      var child := node.entries[name];
      NameIsSaved(root, excluded, base, node, name);
      var sub := [];
      if child.Dir? {
        sub := Walk(root, excluded, child, p);
      }
      SavedName(root, excluded, base, done, out, name, child, sub);
      out := out + [Entry(p, Bare(child))] + sub;
    }
    assert node.entries.Keys - {} == node.entries.Keys;
    AllNames(root, excluded, base, node, out);
  }

  lemma NoNames(root: Node, excluded: Path -> bool, base: Path)
    ensures Partly(root, excluded, base, {}, [])
  {
  }

  lemma NameIsSaved(root: Node, excluded: Path -> bool, base: Path, node: Node, name: string)
    requires Lookup(root, base) == Some(node) && node.Dir? && !Under(excluded, base)
    requires name in node.entries && !excluded(base + [name])
    ensures Saved(root, excluded, base + [name]) && Lookup(root, base + [name]) == Some(node.entries[name])
    ensures !Under(excluded, base + [name])
  {
    LookupBelow(root, base, [name]);
    assert [name][1..] == [];
    var p := base + [name];
    forall k | 0 < k <= |p| ensures !excluded(p[..k]) {
      if k <= |base| { assert p[..k] == base[..k]; } else { assert p[..k] == p; }
    }
  }

  method Serialize(root: Node, excluded: Path -> bool) returns (out: seq<Entry>)
    requires root.Dir?
    ensures Serialized(root, excluded, [], out)
  {
    out := Walk(root, excluded, root, []);
  }

  // ---- applySnapshot ----

  /** prune: what is left of a directory at base when everything is cleared that is neither excluded nor needed
      to hold what is. */
  function Prune(node: Node, excluded: Path -> bool, base: Path): (r: Node)
    requires node.Dir?
    ensures r.Dir? && r.mode == node.mode && r.mtime == node.mtime && r.entries.Keys <= node.entries.Keys
    decreases node, 0
  {
    node.(entries := map name | name in node.entries && Keeps(node.entries[name], excluded, base + [name]) ::
            Kept(node.entries[name], excluded, base + [name]))
  }

  predicate Keeps(child: Node, excluded: Path -> bool, p: Path)
    decreases child, 1
  {
    excluded(p) || (child.Dir? && Prune(child, excluded, p).entries != map[])
  }

  function Kept(child: Node, excluded: Path -> bool, p: Path): Node
    decreases child, 1
  {
    if !excluded(p) && child.Dir? then Prune(child, excluded, p) else child
  }

  /** Does the directory at p hold something excluded, however deep? */
  ghost predicate HoldsExcluded(root: Node, excluded: Path -> bool, p: Path) {
    exists q :: HeldBy(root, excluded, p, q)
  }

  ghost predicate HeldBy(root: Node, excluded: Path -> bool, p: Path, q: Path) {
    p < q && excluded(q) && At(root, q).Some?
  }

  /** What prune leaves at rel below base, which is not excluded itself. */
  ghost predicate PrunedAt(node: Node, excluded: Path -> bool, base: Path, rel: Path)
    requires node.Dir?
  {
    At(Prune(node, excluded, base), rel) ==
    if UnderFrom(excluded, base, rel) || HoldsBelow(node, excluded, base, rel) then At(node, rel) else None
  }

  /** Is base + rel, or a path above it but below base, excluded? */
  ghost predicate UnderFrom(excluded: Path -> bool, base: Path, rel: Path) {
    exists k :: 0 < k <= |rel| && excluded(base + rel[..k])
  }

  ghost predicate HoldsBelow(node: Node, excluded: Path -> bool, base: Path, rel: Path) {
    exists q :: HeldBelow(node, excluded, base, rel, q)
  }

  ghost predicate HeldBelow(node: Node, excluded: Path -> bool, base: Path, rel: Path, q: Path) {
    rel < q && excluded(base + q) && At(node, q).Some?
  }

  /** A pruned directory is empty exactly when nothing excluded is below it. */
  lemma {:induction false} PruneEmpties(node: Node, excluded: Path -> bool, base: Path)
    requires node.Dir?
    ensures Prune(node, excluded, base).entries != map[] <==> HoldsBelow(node, excluded, base, [])
    decreases node
  {
    var pruned := Prune(node, excluded, base);
    if pruned.entries != map[] {
      var name :| name in pruned.entries;
      var child := node.entries[name];
      assert [name][1..] == [];
      if excluded(base + [name]) {
        assert Lookup(node, [name]) == Lookup(child, []) == Some(child);
        assert HeldBelow(node, excluded, base, [], [name]);
      } else {
        assert Keeps(child, excluded, base + [name]);
        PruneEmpties(child, excluded, base + [name]);
        var q :| HeldBelow(child, excluded, base + [name], [], q);
        HeldDeeper(node, excluded, base, name, [], q);
      }
    }
    if HoldsBelow(node, excluded, base, []) {
      var q :| HeldBelow(node, excluded, base, [], q);
      var name := q[0];
      assert Keeps(node.entries[name], excluded, base + [name]) by {
        if !excluded(base + [name]) {
          HeldShallower(node, excluded, base, [], q);
          PruneEmpties(node.entries[name], excluded, base + [name]);
        }
      }
      assert name in pruned.entries;
    }
  }

  lemma HeldDeeper(node: Node, excluded: Path -> bool, base: Path, name: string, rel: Path, q: Path)
    requires node.Dir? && name in node.entries && HeldBelow(node.entries[name], excluded, base + [name], rel, q)
    ensures HeldBelow(node, excluded, base, [name] + rel, [name] + q)
    ensures HeldBelow(node, excluded, base, [], [name] + q)
  {
    assert ([name] + q)[1..] == q && base + [name] + q == base + ([name] + q);
  }

  lemma HeldShallower(node: Node, excluded: Path -> bool, base: Path, rel: Path, q: Path)
    requires node.Dir? && HeldBelow(node, excluded, base, rel, q) && q != [] && (rel == [] ==> !excluded(base + [q[0]]))
    ensures q[0] in node.entries
    ensures HeldBelow(node.entries[q[0]], excluded, base + [q[0]], if rel == [] then [] else rel[1..], q[1..])
  {
    assert base + [q[0]] + q[1..] == base + q;
    assert base + [q[0]] + [] == base + [q[0]];
  }

  /** What is left after pruning: all that is excluded, and the directories above it; nothing else. */
  lemma {:induction false} PruneLeaves(node: Node, excluded: Path -> bool, base: Path, rel: Path)
    requires node.Dir? && rel != []
    ensures PrunedAt(node, excluded, base, rel)
    decreases |rel|
  {
    var name, more := rel[0], rel[1..];
    var p := base + [name];
    assert rel == [name] + more && base + rel == p + more;
    if name in node.entries {
      var child := node.entries[name];
      if excluded(p) {
        assert rel[..1] == [name] && base + rel[..1] == p;
        assert UnderFrom(excluded, base, rel);
      } else if child.Dir? {
        UnderDeeper(excluded, base, name, more);
        HoldsDeeper(node, excluded, base, name, more);
        PruneEmpties(child, excluded, p);
        if more == [] {
          assert !UnderFrom(excluded, p, more);
          assert Lookup(node, rel) == Lookup(child, more) == Some(child);
          if Keeps(child, excluded, p) {
            assert Lookup(Prune(node, excluded, base), rel) == Lookup(Prune(child, excluded, p), more);
          }
        } else {
          PruneLeaves(child, excluded, p, more);
          if !HoldsBelow(child, excluded, p, []) {
            NothingLeft(child, excluded, p, more);
          }
        }
      } else {
        UnderDeeper(excluded, base, name, more);
        LeafHoldsNothing(node, excluded, base, name, more);
      }
    }
  }

  lemma UnderDeeper(excluded: Path -> bool, base: Path, name: string, more: Path)
    requires !excluded(base + [name])
    ensures UnderFrom(excluded, base, [name] + more) <==> UnderFrom(excluded, base + [name], more)
  {
    var rel := [name] + more;
    assert base + [name] + more[..0] == base + [name];
    forall k | 0 < k <= |rel| ensures base + rel[..k] == base + [name] + more[..k - 1] {
      assert rel[..k] == [name] + more[..k - 1];
    }
    if UnderFrom(excluded, base, rel) {
      var k :| 0 < k <= |rel| && excluded(base + rel[..k]);
      assert excluded(base + [name] + more[..k - 1]);
    }
    if UnderFrom(excluded, base + [name], more) {
      var k :| 0 < k <= |more| && excluded(base + [name] + more[..k]);
      assert excluded(base + rel[..k + 1]);
    }
  }

  lemma HoldsDeeper(node: Node, excluded: Path -> bool, base: Path, name: string, more: Path)
    requires node.Dir? && name in node.entries
    ensures HoldsBelow(node, excluded, base, [name] + more)
      <==> HoldsBelow(node.entries[name], excluded, base + [name], more)
  {
    var rel := [name] + more;
    if HoldsBelow(node, excluded, base, rel) {
      var q :| HeldBelow(node, excluded, base, rel, q);
      HeldShallower(node, excluded, base, rel, q);
      assert rel[1..] == more;
    }
    if HoldsBelow(node.entries[name], excluded, base + [name], more) {
      var q :| HeldBelow(node.entries[name], excluded, base + [name], more, q);
      HeldDeeper(node, excluded, base, name, more, q);
    }
  }

  lemma LeafHoldsNothing(node: Node, excluded: Path -> bool, base: Path, name: string, more: Path)
    requires node.Dir? && name in node.entries && !node.entries[name].Dir?
    ensures !HoldsBelow(node, excluded, base, [name] + more)
    ensures more != [] ==> At(node, [name] + more) == None
  {
    HoldsDeeper(node, excluded, base, name, more);
    assert ([name] + more)[0] == name && ([name] + more)[1..] == more;
    assert Lookup(node, [name] + more) == Lookup(node.entries[name], more);
  }

  /** A directory that holds nothing excluded has nothing excluded at any path. */
  lemma NothingLeft(node: Node, excluded: Path -> bool, base: Path, rel: Path)
    requires node.Dir? && !HoldsBelow(node, excluded, base, []) && rel != []
    ensures UnderFrom(excluded, base, rel) || HoldsBelow(node, excluded, base, rel) ==> At(node, rel) == None
  {
    if UnderFrom(excluded, base, rel) && At(node, rel).Some? {
      var k :| 0 < k <= |rel| && excluded(base + rel[..k]);
      assert rel == rel[..k] + rel[k..];
      LookupBelow(node, rel[..k], rel[k..]);
      assert HeldBelow(node, excluded, base, [], rel[..k]);
    }
    if HoldsBelow(node, excluded, base, rel) {
      var q :| HeldBelow(node, excluded, base, rel, q);
      assert HeldBelow(node, excluded, base, [], q);
    }
  }

  /** The entry n set at p: a directory already there keeps what is in it. */
  function SetAt(root: Node, p: Path, n: Node): (r: Node)
    requires p != [] && IsDirAt(root, p[..|p| - 1])
    ensures r.Dir? && r.mode == root.mode && r.mtime == root.mtime
    decreases |p|
  {
    var name := p[0];
    DirAbove(root, p);
    if |p| == 1 then
      var m := if n.Dir? && name in root.entries && root.entries[name].Dir?
               then n.(entries := root.entries[name].entries) else n;
      root.(entries := root.entries[name := m])
    else
      root.(entries := root.entries[name := SetAt(root.entries[name], p[1..], n)])
  }

  lemma DirAbove(root: Node, p: Path)
    requires p != [] && IsDirAt(root, p[..|p| - 1])
    ensures root.Dir?
    ensures |p| > 1 ==> p[0] in root.entries && IsDirAt(root.entries[p[0]], p[1..][..|p| - 2])
  {
    if |p| > 1 {
      assert p[..|p| - 1][1..] == p[1..][..|p| - 2];
    }
  }

  lemma SameEntries(a: Node, b: Node, p: Path)
    requires p != []
    ensures a.Dir? && b.Dir? && a.entries == b.entries ==> At(a, p) == At(b, p)
  {
  }

  /** Setting an entry changes what is at its path, and below it only when it is no directory or no directory
      was there. */
  lemma {:induction false} SetAtLookup(root: Node, p: Path, n: Node, q: Path)
    requires p != [] && IsDirAt(root, p[..|p| - 1]) && n == Bare(n) && q != []
    ensures At(SetAt(root, p, n), q) ==
      if q == p then Some(n)
      else if p < q then (if n.Dir? && IsDirAt(root, p) then At(root, q) else None)
      else At(root, q)
    decreases |p|
  {
    var name := p[0];
    DirAbove(root, p);
    var r := SetAt(root, p, n);
    if q[0] == name {
      assert p == [name] + p[1..] && q == [name] + q[1..];
      assert p < q <==> p[1..] < q[1..];
      if |p| == 1 {
        assert Lookup(r, q) == Lookup(r.entries[name], q[1..]);
        assert Lookup(root, p) == if name in root.entries then Some(root.entries[name]) else None;
        if q[1..] != [] && name in root.entries {
          SameEntries(r.entries[name], root.entries[name], q[1..]);
        }
      } else if |q| == 1 {
        assert Lookup(r, q) == Some(r.entries[name]) && Lookup(root, q) == Some(root.entries[name]);
        assert root.entries[name].Dir?;
      } else {
        SetAtLookup(root.entries[name], p[1..], n, q[1..]);
        assert Lookup(root, p) == Lookup(root.entries[name], p[1..]);
      }
    } else {
      assert !(p < q) && q != p;
    }
  }

  /** A node as it is restored: with no time saved it gets the time it is. */
  function Dated(n: Node, now: nat): Node {
    if n.mtime == 0 then n.(mtime := now) else n
  }

  function DatedAt(n: Node, now: nat, p: Path): Option<Node> {
    match At(n, p) case None => None case Some(m) => Some(Dated(m, now))
  }

  /** What a path holds when the entries out have been set over the pruned tree. */
  ghost function Restored(root: Node, now: nat, pruned: Node, out: seq<Entry>, p: Path): Option<Node> {
    if Lists(out, p) then DatedAt(root, now, p)
    else if exists k :: 0 < k < |p| && Lists(out, p[..k]) && !IsDirAt(root, p[..k]) then None
    else At(pruned, p)
  }

  /** The entries so far agree with the saved tree, and come after their parents. */
  ghost predicate Orderly(root: Node, out: seq<Entry>) {
    && (forall i :: 0 <= i < |out| ==> out[i].p != [] && At(root, out[i].p) == Some(out[i].node))
    && (forall i, k :: 0 <= i < |out| && 0 < k < |out[i].p| ==> Lists(out[..i], out[i].p[..k]))
  }

  ghost predicate RestoredTo(root: Node, now: nat, pruned: Node, out: seq<Entry>, cur: Node) {
    cur.Dir? && forall p: Path :: p != [] ==> At(cur, p) == Restored(root, now, pruned, out, p)
  }

  lemma ListedIsThere(root: Node, out: seq<Entry>, p: Path)
    requires Orderly(root, out) && Lists(out, p)
    ensures p != [] && At(root, p).Some?
  {
  }

  /** The parent of the next entry is a directory of the tree restored so far. */
  lemma ParentIsDir(root: Node, now: nat, pruned: Node, out: seq<Entry>, cur: Node, e: Entry)
    requires RestoredTo(root, now, pruned, out, cur) && e.p != [] && At(root, e.p) == Some(e.node)
    requires forall k :: 0 < k < |e.p| ==> Lists(out, e.p[..k])
    ensures IsDirAt(cur, e.p[..|e.p| - 1])
  {
    var k := |e.p| - 1;
    if k > 0 {
      AboveIsDir(root, e.p, k);
      assert Lists(out, e.p[..k]);
    }
  }

  lemma ListsAbove(root: Node, out: seq<Entry>, p: Path, k: nat)
    requires Orderly(root, out) && Lists(out, p) && 0 < k < |p|
    ensures Lists(out, p[..k])
  {
    var i :| 0 <= i < |out| && out[i].p == p;
    assert Lists(out[..i], p[..k]);
    var j :| 0 <= j < |out[..i]| && out[..i][j].p == p[..k];
    assert out[j].p == p[..k];
  }

  lemma OneMore(out: seq<Entry>, e: Entry, p: Path)
    ensures Lists(out + [e], p) <==> Lists(out, p) || p == e.p
  {
    ListsMore(out, [e], p);
    assert [e][0].p == e.p;
  }

  lemma RestoreOne(root: Node, now: nat, pruned: Node, out: seq<Entry>, cur: Node, e: Entry, q: Path)
    requires RestoredTo(root, now, pruned, out, cur) && Orderly(root, out) && pruned.Dir?
    requires e.p != [] && At(root, e.p) == Some(e.node) && q != []
    requires forall k :: 0 < k < |e.p| ==> Lists(out, e.p[..k])
    requires IsDirAt(cur, e.p[..|e.p| - 1])
    ensures At(SetAt(cur, e.p, Dated(e.node, now)), q) == Restored(root, now, pruned, out + [e], q)
  {
    hide Orderly, RestoredTo;
    BareIsBare(root, e.p);
    SetAtLookup(cur, e.p, Dated(e.node, now), q);
    OneMore(out, e, q);
    forall k | 0 < k < |q| ensures Lists(out + [e], q[..k]) <==> Lists(out, q[..k]) || q[..k] == e.p {
      OneMore(out, e, q[..k]);
    }
    if e.p < q {
      BelowOne(root, now, pruned, out, cur, e, q);
    } else if q != e.p {
      RestoredIs(root, now, pruned, out, cur, q);
      assert forall k :: 0 < k < |q| ==> q[..k] != e.p;
    }
  }

  lemma BareIsBare(root: Node, p: Path)
    ensures At(root, p).Some? ==> At(root, p).value == Bare(At(root, p).value)
  {
  }

  lemma RestoredIs(root: Node, now: nat, pruned: Node, out: seq<Entry>, cur: Node, q: Path)
    requires RestoredTo(root, now, pruned, out, cur) && q != []
    ensures At(cur, q) == Restored(root, now, pruned, out, q)
  {
  }

  /** Below an entry just set. */
  lemma BelowOne(root: Node, now: nat, pruned: Node, out: seq<Entry>, cur: Node, e: Entry, q: Path)
    requires RestoredTo(root, now, pruned, out, cur) && Orderly(root, out) && pruned.Dir?
    requires e.p != [] && At(root, e.p) == Some(e.node) && e.p < q
    requires forall k :: 0 < k < |e.p| ==> Lists(out, e.p[..k])
    ensures Restored(root, now, pruned, out + [e], q) == if e.node.Dir? && IsDirAt(cur, e.p) then At(cur, q) else None
  {
    hide Orderly, RestoredTo;
    RestoredIs(root, now, pruned, out, cur, q);
    RestoredIs(root, now, pruned, out, cur, e.p);
    OneMore(out, e, q);
    forall k | 0 < k < |q| ensures Lists(out + [e], q[..k]) <==> Lists(out, q[..k]) || q[..k] == e.p {
      OneMore(out, e, q[..k]);
    }
    assert q[..|e.p|] == e.p;
    if Lists(out, q) {
      ListedIsThere(root, out, q);
      AboveIsDir(root, q, |e.p|);
      ListsAbove(root, out, q, |e.p|);
    } else if e.node.Dir? {
      NothingBelow(root, now, pruned, out, cur, e, q);
    }
  }

  lemma NotBelow(n: Node, p: Path, q: Path)
    requires p < q && !IsDirAt(n, p)
    ensures At(n, q) == None
  {
    assert q[..|p|] == p;
    if At(n, q).Some? { AboveIsDir(n, q, |p|); }
  }

  lemma NothingBelow(root: Node, now: nat, pruned: Node, out: seq<Entry>, cur: Node, e: Entry, q: Path)
    requires RestoredTo(root, now, pruned, out, cur) && Orderly(root, out) && pruned.Dir?
    requires e.p != [] && At(root, e.p) == Some(e.node) && e.p < q && e.node.Dir? && !Lists(out, q)
    requires forall k :: 0 < k < |e.p| ==> Lists(out, e.p[..k])
    ensures !IsDirAt(cur, e.p) ==> Restored(root, now, pruned, out, q) == None
  {
    hide Orderly, RestoredTo;
    RestoredIs(root, now, pruned, out, cur, e.p);
    if !IsDirAt(cur, e.p) {
      forall k | 0 < k < |e.p| && Lists(out, e.p[..k]) ensures IsDirAt(root, e.p[..k]) {
        AboveIsDir(root, e.p, k);
      }
      assert At(pruned, e.p) == At(cur, e.p);
      NotBelow(pruned, e.p, q);
    }
  }

  /** applySnapshot over the load's own tree. */
  method ApplySnapshot(ghost root: Node, now: nat, excluded: Path -> bool, load: Node, entries: seq<Entry>)
    returns (cur: Node)
    requires load.Dir? && Orderly(root, entries)
    ensures RestoredTo(root, now, Prune(load, excluded, []), entries, cur)
  {
    hide Orderly, RestoredTo, Prune, At;
    cur := Prune(load, excluded, []);
    ghost var pruned := cur;
    assert entries[..0] == [];
    NothingRestored(root, now, pruned);
    for i := 0 to |entries|
      invariant RestoredTo(root, now, pruned, entries[..i], cur)
    {
      var e := entries[i];
      assert entries[..i + 1] == entries[..i] + [e];
      OrderlyAt(root, entries, i);
      ParentIsDir(root, now, pruned, entries[..i], cur, e);
      forall q: Path | q != []
        ensures At(SetAt(cur, e.p, Dated(e.node, now)), q) == Restored(root, now, pruned, entries[..i + 1], q)
      {
        RestoreOne(root, now, pruned, entries[..i], cur, e, q);
      }
      cur := SetAt(cur, e.p, Dated(e.node, now));
      RestoredNow(root, now, pruned, entries[..i + 1], cur);
    }
    assert entries[..|entries|] == entries;
  }

  lemma RestoredNow(root: Node, now: nat, pruned: Node, out: seq<Entry>, cur: Node)
    requires cur.Dir? && forall q: Path :: q != [] ==> At(cur, q) == Restored(root, now, pruned, out, q)
    ensures RestoredTo(root, now, pruned, out, cur)
  {
  }

  lemma NothingRestored(root: Node, now: nat, pruned: Node)
    requires pruned.Dir?
    ensures RestoredTo(root, now, pruned, [], pruned)
  {
  }

  lemma OrderlyAt(root: Node, out: seq<Entry>, i: nat)
    requires Orderly(root, out) && i < |out|
    ensures out[i].p != [] && At(root, out[i].p) == Some(out[i].node)
    ensures forall k :: 0 < k < |out[i].p| ==> Lists(out[..i], out[i].p[..k])
    ensures Orderly(root, out[..i])
  {
    forall j | 0 <= j < i ensures out[..i][..j] == out[..j] {}
  }

  lemma SerializedIsOrderly(root: Node, excluded: Path -> bool, out: seq<Entry>)
    requires Serialized(root, excluded, [], out)
    ensures Orderly(root, out)
  {
  }

  /** What a restored tree holds at every path: what was saved, dated if it was not; below a saved thing that is no
      directory nothing; what the load has at excluded paths and the directories above them; and nothing else. */
  ghost function AfterRestore(old_: Node, now: nat, load: Node, excluded: Path -> bool, p: Path): Option<Node> {
    if Saved(old_, excluded, p) then DatedAt(old_, now, p)
    else if exists k :: 0 < k < |p| && Saved(old_, excluded, p[..k]) && !IsDirAt(old_, p[..k]) then None
    else if Under(excluded, p) || HoldsExcluded(load, excluded, p) then At(load, p)
    else None
  }

  lemma RestoredMeans(old_: Node, now: nat, load: Node, excluded: Path -> bool, out: seq<Entry>, p: Path)
    requires load.Dir? && p != [] && Serialized(old_, excluded, [], out)
    ensures Restored(old_, now, Prune(load, excluded, []), out, p) == AfterRestore(old_, now, load, excluded, p)
  {
    hide Prune;
    ListsSaved(old_, excluded, out, p);
    forall k | 0 < k < |p| ensures Lists(out, p[..k]) <==> Saved(old_, excluded, p[..k]) {
      ListsSaved(old_, excluded, out, p[..k]);
    }
    PruneLeaves(load, excluded, [], p);
    FromRoot(load, excluded, p);
  }

  lemma ListsSaved(old_: Node, excluded: Path -> bool, out: seq<Entry>, p: Path)
    requires Serialized(old_, excluded, [], out)
    ensures Lists(out, p) <==> Saved(old_, excluded, p)
  {
  }

  lemma FromRoot(load: Node, excluded: Path -> bool, p: Path)
    ensures UnderFrom(excluded, [], p) <==> Under(excluded, p)
    ensures HoldsBelow(load, excluded, [], p) <==> HoldsExcluded(load, excluded, p)
  {
    forall q: Path ensures [] + q == q {}
    forall q: Path ensures HeldBelow(load, excluded, [], p, q) <==> HeldBy(load, excluded, p, q) {}
  }

  /** An excluded path is as the load made it exactly when it holds nothing there or nothing above it was saved
      as something other than a directory. */
  lemma ExcludedIsKept(old_: Node, now: nat, load: Node, excluded: Path -> bool, p: Path)
    requires p != [] && Under(excluded, p)
    ensures AfterRestore(old_, now, load, excluded, p) == At(load, p) <==>
      At(load, p) == None || forall k :: 0 < k < |p| && Saved(old_, excluded, p[..k]) ==> IsDirAt(old_, p[..k])
  {
  }

  /** Two things of one kind, with the same mode, and the same bytes or the same target. */
  predicate Alike(a: Node, b: Node) {
    && a.mode == b.mode
    && match a
       case Dir(_, _, _) => b.Dir?
       case File(_, _, data) => b.File? && b.data == data
       case Link(_, _, target) => b.Link? && b.target == target
       case Device(_, _) => b.Device?
  }

  /** What is at p in the old tree is at p in the new one, with its time if it had one and now if it had not. */
  ghost predicate BroughtBack(old_: Node, now: nat, cur: Node, p: Path) {
    var a, b := Lookup(old_, p), Lookup(cur, p);
    a.Some? && b.Some? && Alike(a.value, b.value) &&
    b.value.mtime == if a.value.mtime == 0 then now else a.value.mtime
  }

  /** What the load has at p is there still, untouched. */
  ghost predicate LeftAlone(load: Node, cur: Node, p: Path) {
    var a, b := Lookup(load, p), Lookup(cur, p);
    a.Some? && b.Some? && Alike(a.value, b.value) && b.value.mtime == a.value.mtime
  }

  lemma SavedComesBack(old_: Node, now: nat, load: Node, excluded: Path -> bool, cur: Node, p: Path)
    requires Saved(old_, excluded, p) && At(cur, p) == AfterRestore(old_, now, load, excluded, p)
    ensures BroughtBack(old_, now, cur, p)
  {
  }

  lemma ExcludedIsLeft(old_: Node, now: nat, load: Node, excluded: Path -> bool, cur: Node, p: Path)
    requires p != [] && At(cur, p) == AfterRestore(old_, now, load, excluded, p) && SafelyExcluded(old_, excluded, p)
    requires At(load, p).Some?
    ensures LeftAlone(load, cur, p)
  {
    ExcludedIsKept(old_, now, load, excluded, p);
  }

  /** Excluded, and below nothing that was saved as something other than a directory. */
  ghost predicate SafelyExcluded(old_: Node, excluded: Path -> bool, p: Path) {
    Under(excluded, p) && forall k :: 0 < k < |p| && Saved(old_, excluded, p[..k]) ==> IsDirAt(old_, p[..k])
  }

  /** A tree saved by one load and restored by the next. */
  method SaveAndRestore(old_: Node, now: nat, load: Node, excluded: Path -> bool) returns (cur: Node)
    requires old_.Dir? && load.Dir?
    ensures cur.Dir? && forall p: Path :: p != [] ==> At(cur, p) == AfterRestore(old_, now, load, excluded, p)
    ensures forall p: Path :: Saved(old_, excluded, p) ==> BroughtBack(old_, now, cur, p)
    ensures forall p: Path ::
      p != [] && At(load, p).Some? && SafelyExcluded(old_, excluded, p) ==> LeftAlone(load, cur, p)
  {
    hide Serialized, AfterRestore, Prune, Orderly, Restored, BroughtBack, LeftAlone, SafelyExcluded;
    var out := Serialize(old_, excluded);
    SerializedIsOrderly(old_, excluded, out);
    cur := ApplySnapshot(old_, now, excluded, load, out);
    forall p: Path | p != []
      ensures At(cur, p) == AfterRestore(old_, now, load, excluded, p)
    {
      RestoredMeans(old_, now, load, excluded, out, p);
    }
    forall p: Path | Saved(old_, excluded, p) ensures BroughtBack(old_, now, cur, p) {
      SavedComesBack(old_, now, load, excluded, cur, p);
    }
    forall p: Path | p != [] && At(load, p).Some? && SafelyExcluded(old_, excluded, p) ensures LeftAlone(load, cur, p) {
      ExcludedIsLeft(old_, now, load, excluded, cur, p);
    }
  }

  /** A path that is neither saved nor excluded is there after a restore only as a directory of the load with
      something excluded in it. */
  lemma OnlyDirectoriesStay(old_: Node, now: nat, load: Node, excluded: Path -> bool, p: Path)
    requires p != [] && !Saved(old_, excluded, p) && !Under(excluded, p)
      && AfterRestore(old_, now, load, excluded, p).Some?
    ensures IsDirAt(load, p) && HoldsExcluded(load, excluded, p)
      && AfterRestore(old_, now, load, excluded, p) == At(load, p)
  {
    var q :| HeldBy(load, excluded, p, q);
    AboveIsDir(load, q, |p|);
    assert q[..|p|] == p;
  }
}
