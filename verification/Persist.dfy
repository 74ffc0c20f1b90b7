/** Write-through persistence of the filesystem (cmd/websh/persist.go): each sync writes what changed since the
    last one, by signature, and tries again what failed. The database is a map from paths; a write or delete
    that fails leaves it as it was. */
module Persist {
  import opened Wrappers

  type Path = string

  /** A file or directory. Times are in milliseconds. */
  datatype Record = Record(isDir: bool, mode: nat, mtime: int, size: nat, data: seq<bv8>)

  datatype Sig = Sig(isDir: bool, size: nat, mtime: int)

  function SigOf(r: Record): Sig {
    Sig(r.isDir, r.size, r.mtime)
  }

  /** One sync: the filesystem it walks, and which of its operations succeed. */
  datatype Round = Round(fs: map<Path, Record>, puts: Path -> bool, deletes: Path -> bool, canRead: Path -> bool) {
    /** Is p written in this round, if its read succeeds? */
    predicate Changed(prev: map<Path, Sig>, p: Path) {
      p in fs && !(p in prev && prev[p] == SigOf(fs[p]))
    }

    predicate Readable(p: Path)
      requires p in fs
    {
      fs[p].isDir || canRead(p)
    }

    ghost predicate AllReadable(prev: map<Path, Sig>) {
      forall p :: Changed(prev, p) ==> Readable(p)
    }

    ghost predicate Succeeds() {
      (forall p :: puts(p)) && forall p :: deletes(p)
    }
  }

  datatype Kept = Kept(sig: Option<Sig>, rec: Option<Record>)

  function Get<V>(m: map<Path, V>, p: Path): Option<V> {
    if p in m then Some(m[p]) else None
  }

  /** What the walk leaves for one path: the signature it notes and the record in the store. */
  function Walked(r: Round, prev: map<Path, Sig>, store: map<Path, Record>, p: Path): Kept {
    if p !in r.fs then Kept(None, Get(store, p))
    else if !r.Changed(prev, p) || !r.Readable(p) then Kept(Some(SigOf(r.fs[p])), Get(store, p))
    else if r.puts(p) then Kept(Some(SigOf(r.fs[p])), Some(r.fs[p]))
    else Kept(None, Get(store, p))
  }

  /** What the whole sync leaves for one path. */
  function Synced(r: Round, prev: map<Path, Sig>, store: map<Path, Record>, p: Path): Kept {
    var w := Walked(r, prev, store, p);
    if p in prev && w.sig.None? then (if r.deletes(p) then Kept(None, None) else Kept(Some(prev[p]), w.rec)) else w
  }

  /** The same with some paths still to be walked, or still to be deleted. */
  ghost function Walking(r: Round, prev: map<Path, Sig>, store: map<Path, Record>, paths: set<Path>, p: Path): Kept {
    if p in paths then Kept(None, Get(store, p)) else Walked(r, prev, store, p)
  }

  ghost function Deleting(r: Round, prev: map<Path, Sig>, store: map<Path, Record>, paths: set<Path>, p: Path): Kept {
    if p in paths then Walked(r, prev, store, p) else Synced(r, prev, store, p)
  }

  // ---- what is loaded ----

  /** Is a a directory above p? */
  predicate Above(a: Path, p: Path) {
    0 < |a| < |p| && p[..|a|] == a && p[|a|] == '/'
  }

  function Parents(p: Path): set<Path> {
    set i | 0 < i < |p| && p[i] == '/' :: p[..i]
  }

  lemma AboveSet(p: Path)
    ensures forall a :: a in Parents(p) <==> Above(a, p)
  {
    forall a | Above(a, p) ensures a in Parents(p) {
      assert 0 < |a| < |p| && p[|a|] == '/' && p[..|a|] == a;
    }
  }

  /** A record as it is created again: of its mode only the permission bits. */
  function Restored(r: Record, time: int): Record {
    if r.isDir then Record(true, r.mode % 0x200, time, 0, [])
    else Record(false, r.mode % 0x200, time, |r.data|, r.data)
  }

  /** Which operations of a load succeed, the mode of directories made for what is below them, and the time. */
  datatype Loads = Loads(dirs: Path -> bool, files: Path -> bool, times: Path -> bool, mode: Path -> nat, now: int)

  predicate Creates(store: map<Path, Record>, o: Loads, p: Path) {
    p in store && if store[p].isDir then o.dirs(p) else o.files(p)
  }

  /** A directory made for what is below it. */
  function Made(o: Loads, p: Path): Record {
    Record(true, o.mode(p), o.now, 0, [])
  }

  /** What a load has at p, which it created or made for what is below it. */
  function LoadedAt(store: map<Path, Record>, o: Loads, p: Path): Record {
    if Creates(store, o, p) then Restored(store[p], if !store[p].isDir && o.times(p) then store[p].mtime else o.now)
    else Made(o, p)
  }

  ghost predicate AboveOne(p: Path, qs: set<Path>) {
    exists q :: q in qs && Above(p, q)
  }

  /** The same when only some of the paths have been created yet. */
  ghost function LoadedBy(store: map<Path, Record>, o: Loads, created: set<Path>, p: Path): Option<Record> {
    if p in created || AboveOne(p, created) then Some(if p in created then LoadedAt(store, o, p) else Made(o, p))
    else None
  }

  /** One more path is created, with what is missing above it. */
  lemma CreatedNext(store: map<Path, Record>, o: Loads, fs: map<Path, Record>, created: set<Path>, path: Path, p: Path)
    requires Creates(store, o, path) && Get(fs, p) == LoadedBy(store, o, created, p)
    ensures
      var above := map a | a in Parents(path) && a !in fs :: Made(o, a);
      Get((fs + above)[path := LoadedAt(store, o, path)], p) == LoadedBy(store, o, created + {path}, p)
  {
    hide Above, LoadedAt, Parents, Made, Creates;
    AboveSet(path);
    var next := created + {path};
    if AboveOne(p, next) {
      var q :| q in next && Above(p, q);
      assert q == path || AboveOne(p, created);
    }
    if AboveOne(p, created) {
      var q :| q in created && Above(p, q);
      assert q in next;
    }
    if Above(p, path) {
      assert path in next;
    }
  }

  ghost predicate LoadedSoFar(store: map<Path, Record>, o: Loads, fs: map<Path, Record>, created: set<Path>) {
    forall p :: Get(fs, p) == LoadedBy(store, o, created, p)
  }

  lemma AllCreatedNext(store: map<Path, Record>, o: Loads, fs: map<Path, Record>, created: set<Path>, path: Path)
    requires Creates(store, o, path) && LoadedSoFar(store, o, fs, created)
    ensures
      var above := map a | a in Parents(path) && a !in fs :: Made(o, a);
      LoadedSoFar(store, o, (fs + above)[path := LoadedAt(store, o, path)], created + {path})
  {
    hide LoadedAt, Made, LoadedBy, Get, Parents, Creates;
    var above := map a | a in Parents(path) && a !in fs :: Made(o, a);
    forall p
      ensures Get((fs + above)[path := LoadedAt(store, o, path)], p) == LoadedBy(store, o, created + {path}, p)
    {
      CreatedNext(store, o, fs, created, path, p);
    }
  }

  /** Those of the paths that can be created. */
  ghost function CreatedOf(store: map<Path, Record>, o: Loads, keys: seq<Path>): set<Path> {
    set p | p in keys && Creates(store, o, p)
  }

  lemma CreatedSnoc(store: map<Path, Record>, o: Loads, keys: seq<Path>, i: nat)
    requires i < |keys| && forall j, k :: 0 <= j < k < |keys| ==> keys[j] != keys[k]
    ensures keys[i] !in CreatedOf(store, o, keys[..i])
    ensures CreatedOf(store, o, keys[..i + 1]) ==
      CreatedOf(store, o, keys[..i]) + if Creates(store, o, keys[i]) then {keys[i]} else {}
  {
    hide Creates;
    assert keys[..i + 1] == keys[..i] + [keys[i]];
  }

  lemma CreatedAll(store: map<Path, Record>, o: Loads, keys: seq<Path>)
    requires forall p :: p in store <==> p in keys
    ensures CreatedOf(store, o, keys) == set p | p in store && Creates(store, o, p)
  {
    hide Creates;
  }

  class Storage {
    var store: map<Path, Record>

    constructor (store: map<Path, Record>)
      ensures this.store == store
    {
      this.store := store;
    }

    method Put(p: Path, rec: Record, succeeds: bool) returns (ok: bool)
      modifies this
      ensures ok == succeeds && store == if ok then old(store)[p := rec] else old(store)
    {
      if succeeds {
        store := store[p := rec];
      }
      return succeeds;
    }

    method Delete(p: Path, succeeds: bool) returns (ok: bool)
      modifies this
      ensures ok == succeeds && store == if ok then old(store) - {p} else old(store)
    {
      if succeeds {
        store := store - {p};
      }
      return succeeds;
    }

    /** syncFS. Paths are walked in any order. */
    method SyncFS(r: Round, prev: map<Path, Sig>) returns (next: map<Path, Sig>)
      modifies this
      ensures forall p :: Kept(Get(next, p), Get(store, p)) == Synced(r, prev, old(store), p)
    {
      next := map[];
      var paths := r.fs.Keys;
      while paths != {}
        invariant paths <= r.fs.Keys
        invariant forall p :: Kept(Get(next, p), Get(store, p)) == Walking(r, prev, old(store), paths, p)
        decreases paths
      {
        var path :| path in paths;
        ghost var n0, s0, p0 := next, store, paths;
        paths := paths - {path};
        var rec := r.fs[path];
        var sig := SigOf(rec);
        next := next[path := sig];
        if !(path in prev && prev[path] == sig) && (rec.isDir || r.canRead(path)) {
          var ok := Put(path, rec, r.puts(path));
          if !ok {
            next := next - {path};
          }
        }
        forall p ensures Kept(Get(next, p), Get(store, p)) == Walking(r, prev, old(store), paths, p) {
          assert Kept(Get(n0, p), Get(s0, p)) == Walking(r, prev, old(store), p0, p);
        }
      }
      var old_ := prev.Keys;
      while old_ != {}
        invariant old_ <= prev.Keys
        invariant forall p :: Kept(Get(next, p), Get(store, p)) == Deleting(r, prev, old(store), old_, p)
        decreases old_
      {
        var path :| path in old_;
        old_ := old_ - {path};
        if path !in next {
          var ok := Delete(path, r.deletes(path));
          if !ok {
            next := next[path := prev[path]];
          }
        }
      }
    }

    /** loadAll: the stored paths are created again in the order of their keys, those that cannot be left out, and
        with each the directories above it. */
    method LoadAll(keys: seq<Path>, o: Loads) returns (fs: map<Path, Record>, restored: nat)
      requires forall p :: p in store <==> p in keys
      requires forall i, j :: 0 <= i < j < |keys| ==> keys[i] != keys[j] && !Above(keys[j], keys[i])
      ensures
        var created := set p | p in store && Creates(store, o, p);
        && restored == |created|
        && (forall p :: p in fs <==> p in created || AboveOne(p, created))
        && forall p :: p in fs ==> fs[p] == LoadedAt(store, o, p)
    {
      hide Above, Parents, Made, Restored, LoadedAt, LoadedSoFar, CreatedOf;
      fs, restored := map[], 0;
      NothingLoaded(store, o);
      assert keys[..0] == [];
      for i := 0 to |keys|
        invariant restored == |CreatedOf(store, o, keys[..i])|
        invariant LoadedSoFar(store, o, fs, CreatedOf(store, o, keys[..i]))
      {
        var path := keys[i];
        CreatedSnoc(store, o, keys, i);
        if if store[path].isDir then o.dirs(path) else o.files(path) {
          AllCreatedNext(store, o, fs, CreatedOf(store, o, keys[..i]), path);
          var above := map a | a in Parents(path) && a !in fs :: Made(o, a);
          var time := if !store[path].isDir && o.times(path) then store[path].mtime else o.now;
          RestoredAt(store, o, path);
          fs := (fs + above)[path := Restored(store[path], time)];
          restored := restored + 1;
        }
      }
      assert keys[..|keys|] == keys;
      CreatedAll(store, o, keys);
      AllLoaded(store, o, fs, CreatedOf(store, o, keys));
    }
  }

  lemma NothingLoaded(store: map<Path, Record>, o: Loads)
    ensures CreatedOf(store, o, []) == {} && LoadedSoFar(store, o, map[], {})
  {
  }

  lemma RestoredAt(store: map<Path, Record>, o: Loads, p: Path)
    requires Creates(store, o, p)
    ensures LoadedAt(store, o, p) ==
      Restored(store[p], if !store[p].isDir && o.times(p) then store[p].mtime else o.now)
  {
  }

  lemma AllLoaded(store: map<Path, Record>, o: Loads, fs: map<Path, Record>, created: set<Path>)
    requires created == set p | p in store && Creates(store, o, p)
    requires LoadedSoFar(store, o, fs, created)
    ensures forall p :: p in fs <==> p in created || AboveOne(p, created)
    ensures forall p :: p in fs ==> fs[p] == LoadedAt(store, o, p)
  {
    hide AboveOne;
    forall p
      ensures p in fs <==> p in created || AboveOne(p, created)
      ensures p in fs ==> fs[p] == LoadedAt(store, o, p)
    {
      assert Get(fs, p) == LoadedBy(store, o, created, p);
    }
  }

  // ---- what the rounds keep ----

  /** The signatures are those of what is stored, path by path. */
  ghost predicate Tracks(sigs: map<Path, Sig>, store: map<Path, Record>) {
    forall p :: Get(sigs, p) == match Get(store, p) case None => None case Some(rec) => Some(SigOf(rec))
  }

  /** The signatures and the store after a round. */
  ghost predicate Syncs(r: Round, prev: map<Path, Sig>, store: map<Path, Record>, next: map<Path, Sig>,
        store': map<Path, Record>) {
    forall p :: Kept(Get(next, p), Get(store', p)) == Synced(r, prev, store, p)
  }

  /** Whatever writes and deletes fail, the signatures go on telling what is stored, exactly when no file that
      changed could not be read. */
  lemma TracksIfReadable(r: Round, prev: map<Path, Sig>, store: map<Path, Record>, next: map<Path, Sig>,
        store': map<Path, Record>)
    requires Tracks(prev, store) && Syncs(r, prev, store, next, store')
    ensures Tracks(next, store') <==> r.AllReadable(prev)
  {
    forall p
      ensures (Get(next, p) == match Get(store', p) case None => None case Some(rec) => Some(SigOf(rec)))
        <==> (r.Changed(prev, p) ==> r.Readable(p))
    {
      var k := Synced(r, prev, store, p);
      assert Kept(Get(next, p), Get(store', p)) == k;
      assert Get(prev, p) == match Get(store, p) case None => None case Some(rec) => Some(SigOf(rec));
    }
    if !r.AllReadable(prev) {
      var p :| r.Changed(prev, p) && !r.Readable(p);
      assert Get(next, p) != match Get(store', p) case None => None case Some(rec) => Some(SigOf(rec));
    }
  }

  /** A path that is in the filesystem and stored loses its record in a round exactly when it was stored before,
      has changed and is read, its write fails, and the delete that follows succeeds. */
  lemma LosesRecord(r: Round, prev: map<Path, Sig>, store: map<Path, Record>, next: map<Path, Sig>,
        store': map<Path, Record>, p: Path)
    requires Syncs(r, prev, store, next, store') && p in r.fs && p in store
    ensures p !in store' <==> p in prev && r.Changed(prev, p) && r.Readable(p) && !r.puts(p) && r.deletes(p)
    ensures p !in store' ==> p !in next
  {
    assert Kept(Get(next, p), Get(store', p)) == Synced(r, prev, store, p);
  }

  /** After a baseline in which everything succeeds they do so exactly when nothing was stored that is not in
      the filesystem: such a record is never deleted. */
  lemma BaselineTracks(r: Round, store: map<Path, Record>, next: map<Path, Sig>, store': map<Path, Record>)
    requires r.Succeeds() && r.AllReadable(map[]) && Syncs(r, map[], store, next, store')
    ensures Tracks(next, store') <==> store.Keys <= r.fs.Keys
    ensures store.Keys <= r.fs.Keys ==> store' == r.fs
  {
    forall p
      ensures Get(next, p) == (if p in r.fs then Some(SigOf(r.fs[p])) else None)
      ensures Get(store', p) == if p in r.fs then Some(r.fs[p]) else Get(store, p)
    {
      assert Kept(Get(next, p), Get(store', p)) == Synced(r, map[], store, p);
      assert p in r.fs ==> r.Changed(map[], p);
    }
    if Tracks(next, store') {
      forall p | p in store ensures p in r.fs {
        assert Get(next, p) == match Get(store', p) case None => None case Some(rec) => Some(SigOf(rec));
      }
    }
    if store.Keys <= r.fs.Keys {
      forall p ensures Get(store', p) == Get(r.fs, p) {}
      MapsEqual(store', r.fs);
    }
  }

  lemma MapsEqual<V>(a: map<Path, V>, b: map<Path, V>)
    requires forall p :: Get(a, p) == Get(b, p)
    ensures a == b
  {
    assert forall p :: p in a <==> Get(a, p).Some?;
    assert forall p :: p in b <==> Get(b, p).Some?;
    assert forall p :: p in a ==> a[p] == Get(a, p).value && b[p] == Get(b, p).value;
  }

  /** Equal signatures mean equal records. */
  ghost predicate SigsTell(fs: map<Path, Record>, store: map<Path, Record>) {
    forall p :: p in fs && p in store && SigOf(fs[p]) == SigOf(store[p]) ==> fs[p] == store[p]
  }

  /** A signature tells the kind, the size and the time of what it was made of, and nothing else: not the mode, and not
      the bytes. */
  lemma SigTells(a: Record, b: Record)
    ensures SigOf(a) == SigOf(b) <==> a.isDir == b.isDir && a.size == b.size && a.mtime == b.mtime
  {
  }

  /** What is of another kind, size or time than what is stored is written, whole, when it can be read and the write
      succeeds; what is of the same is neither written nor deleted. */
  lemma WritesWhatChanged(r: Round, prev: map<Path, Sig>, store: map<Path, Record>, next: map<Path, Sig>,
        store': map<Path, Record>, p: Path)
    requires Tracks(prev, store) && Syncs(r, prev, store, next, store') && p in r.fs && p in store
    ensures
      var a, b := r.fs[p], store[p];
      if a.isDir == b.isDir && a.size == b.size && a.mtime == b.mtime then Get(store', p) == Some(b)
      else (a.isDir || r.canRead(p)) && r.puts(p) ==> Get(store', p) == Some(a)
  {
    assert Kept(Get(next, p), Get(store', p)) == Synced(r, prev, store, p);
    assert Get(prev, p) == match Get(store, p) case None => None case Some(rec) => Some(SigOf(rec));
  }

  /** One round in which everything succeeds brings the store to the filesystem exactly when the signatures tell. */
  lemma SuccessConverges(r: Round, prev: map<Path, Sig>, store: map<Path, Record>, next: map<Path, Sig>,
        store': map<Path, Record>)
    requires Tracks(prev, store) && Syncs(r, prev, store, next, store')
    requires r.Succeeds() && r.AllReadable(prev)
    ensures store' == r.fs <==> SigsTell(r.fs, store)
  {
    forall p
      ensures p in r.fs && p in store && SigOf(r.fs[p]) == SigOf(store[p]) ==> Get(store', p) == Get(store, p)
      ensures !(p in r.fs && p in store && SigOf(r.fs[p]) == SigOf(store[p])) ==> Get(store', p) == Get(r.fs, p)
    {
      assert Kept(Get(next, p), Get(store', p)) == Synced(r, prev, store, p);
      assert Get(prev, p) == match Get(store, p) case None => None case Some(rec) => Some(SigOf(rec));
    }
    if SigsTell(r.fs, store) {
      forall p ensures Get(store', p) == Get(r.fs, p) {}
      MapsEqual(store', r.fs);
    } else {
      var p :| p in r.fs && p in store && SigOf(r.fs[p]) == SigOf(store[p]) && r.fs[p] != store[p];
      assert Get(store', p) == Some(store[p]) != Get(r.fs, p);
    }
  }

  /** A new mode alone is not stored: the record keeps the old one, whatever succeeds. */
  lemma ModeIsNotSeen(r: Round, prev: map<Path, Sig>, store: map<Path, Record>, next: map<Path, Sig>,
        store': map<Path, Record>, p: Path, mode: nat)
    requires Tracks(prev, store) && Syncs(r, prev, store, next, store') && p in store && store[p].mode != mode
    requires p in r.fs && r.fs[p] == store[p].(mode := mode)
    ensures p in store' && store'[p].mode != r.fs[p].mode
  {
    WritesWhatChanged(r, prev, store, next, store', p);
  }

  /** Rounds one after another, each with the signatures the one before returned. */
  ghost predicate History(rs: seq<Round>, prev: map<Path, Sig>, store: map<Path, Record>, last: map<Path, Sig>,
        store': map<Path, Record>)
    decreases |rs|
  {
    if rs == [] then last == prev && store' == store
    else exists next, s :: Readably(rs[0], prev, store, next, s) && History(rs[1..], next, s, last, store')
  }

  ghost predicate Readably(r: Round, prev: map<Path, Sig>, store: map<Path, Record>, next: map<Path, Sig>,
        s: map<Path, Record>) {
    Syncs(r, prev, store, next, s) && r.AllReadable(prev)
  }

  lemma {:induction false} HistoryTracks(rs: seq<Round>, prev: map<Path, Sig>, store: map<Path, Record>,
        last: map<Path, Sig>, store': map<Path, Record>)
    requires Tracks(prev, store) && History(rs, prev, store, last, store')
    ensures Tracks(last, store')
    decreases |rs|
  {
    if rs != [] {
      var next, s :| Readably(rs[0], prev, store, next, s) && History(rs[1..], next, s, last, store');
      TracksIfReadable(rs[0], prev, store, next, s);
      HistoryTracks(rs[1..], next, s, last, store');
    }
  }

  /** After a baseline that succeeds, any later history of failed writes and deletes followed by one round in
      which all succeed leaves the store equal to the filesystem, exactly when the signatures tell. */
  lemma Converges(base: Round, before: map<Path, Record>, prev: map<Path, Sig>, store: map<Path, Record>,
                  rs: seq<Round>, sigs: map<Path, Sig>, stored: map<Path, Record>,
                  r: Round, next: map<Path, Sig>, store': map<Path, Record>)
    requires base.Succeeds() && Readably(base, map[], before, prev, store) && before.Keys <= base.fs.Keys
    requires History(rs, prev, store, sigs, stored)
    requires Readably(r, sigs, stored, next, store') && r.Succeeds()
    ensures store' == r.fs <==> SigsTell(r.fs, stored)
  {
    BaselineTracks(base, before, prev, store);
    HistoryTracks(rs, prev, store, sigs, stored);
    SuccessConverges(r, sigs, stored, next, store');
  }

  // ---- what comes back ----

  /** Everything that is stored is created with its time. */
  ghost predicate LoadsAll(o: Loads) {
    (forall p :: o.dirs(p)) && (forall p :: o.files(p)) && forall p :: o.times(p)
  }

  /** What a load leaves at a path: what was stored there, when it can be created, with its time when that can be
      set; and otherwise an empty directory for what is below it. */
  lemma LoadedMeans(store: map<Path, Record>, o: Loads, p: Path)
    ensures
      var r := LoadedAt(store, o, p);
      if p in store && (if store[p].isDir then o.dirs(p) else o.files(p)) then
        ComesBack(store[p].(mtime := if o.times(p) then store[p].mtime else o.now), r, o.now)
      else r.isDir && r.mode == o.mode(p) && r.mtime == o.now && r.size == 0 && r.data == []
  {
  }

  /** A directory as a directory, made now; a file with its bytes and its time; either with its permission bits. */
  predicate ComesBack(stored: Record, loaded: Record, now: int) {
    && loaded.isDir == stored.isDir && loaded.mode == stored.mode % 512
    && (stored.isDir ==> loaded.mtime == now && loaded.size == 0 && loaded.data == [])
    && (!stored.isDir ==> loaded.data == stored.data && loaded.size == |stored.data| && loaded.mtime == stored.mtime)
  }

  /** After a load in which all succeeds, what is there is what was stored, files with their bytes, permissions and
      time, directories with their permissions; and nothing else exactly when every directory above something
      stored was stored too. */
  lemma LoadsWhatWasStored(store: map<Path, Record>, o: Loads, fs: map<Path, Record>)
    requires LoadsAll(o)
    requires forall p :: p in fs <==> p in store || AboveOne(p, store.Keys)
    requires forall p :: p in fs ==> fs[p] == LoadedAt(store, o, p)
    ensures forall p :: p in store ==> p in fs && ComesBack(store[p], fs[p], o.now)
    ensures fs.Keys == store.Keys <==> forall q, a :: q in store && Above(a, q) ==> a in store
  {
    forall p | p in store ensures p in fs && ComesBack(store[p], fs[p], o.now) {
      assert fs[p] == LoadedAt(store, o, p);
    }
    if fs.Keys == store.Keys {
      forall q, a | q in store && Above(a, q) ensures a in store {
        assert AboveOne(a, store.Keys);
        assert a in fs;
      }
    }
  }
}
