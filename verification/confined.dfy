/**
 File-system operations seen from one directory: what they do to the tree below
 it, while everything outside it, the watched path included, stays as it is.
 */
module Confined {
  import opened Basics
  import opened Text
  import opened PosixPath
  import opened FileSystems

  ghost predicate Apart(a: Path, b: Path) {
    !(a <= b) && !(b <= a)
  }

  lemma ApartBelow(a: Path, b: Path, p: Path)
    requires Apart(a, b) && b <= p
    ensures !(a <= p) && Apart(a, p)
  {
    if a <= p {
      PrefixesComparable(a, b, p);
    }
    if p <= a {
      PrefixTransitive(b, p, a);
    }
  }

  lemma PrefixTransitive(a: Path, b: Path, c: Path)
    requires a <= b && b <= c
    ensures a <= c
  {
    assert a == b[..|a|] == c[..|a|];
  }

  /** The observer sees nothing at the watched path, and `root` lies elsewhere. */
  ghost predicate Unwatched(fs: FileSystem, root: Path)
    reads fs`m
  {
    fs.Valid() && Absent(fs.m, fs.watch) && Apart(fs.watch, root)
  }

  /** Between two states, only the inside of `root` may have changed, unobserved. */
  twostate predicate Within(fs: FileSystem, root: Path)
    reads fs
  {
    && Unwatched(fs, root) && fs.intact == old(fs.intact) && fs.faults >= old(fs.faults)
    && Outside(fs.m, root) == Outside(old(fs.m), root)
  }

  /** Components the file system takes. */
  ghost predicate Creatable(k: Path) {
    forall i :: 0 <= i < |k| ==> Normal(k[i]) && ByteLen(k[i]) <= MAX_COMPONENT
  }

  /** All directories of a tree let their owner remove entries. */
  ghost predicate OpenDirs(t: Tree) {
    forall k :: k in t && t[k].Dir? ==> OwnerWritable(t[k].mode)
  }

  lemma OpenStored(t: Tree, k: Path, v: Node)
    requires OpenDirs(t) && (v.Dir? ==> OwnerWritable(v.mode))
    ensures OpenDirs(t[k := v])
  {
  }

  lemma StoredOver(t: Tree, k: Path, v: Node, w: Node)
    ensures t[k := v][k := w] == t[k := w]
    ensures k in t[k := v] && t[k := v][k] == v
  {
  }

  lemma WritablePrivateDir()
    ensures OwnerWritable(PRIVATE_DIR)
  {
  }

  predicate CanCreateIn(t: Tree, k: Path) {
    && k != [] && k !in t
    && Parent(k) in t && t[Parent(k)].Dir? && OwnerWritable(t[Parent(k)].mode)
    && Normal(Last(k)) && ByteLen(Last(k)) <= MAX_COMPONENT
  }

  lemma CanCreateThere(m: Tree, root: Path, k: Path)
    requires CanCreateIn(Sub(m, root), k)
    ensures CanCreate(m, root + k)
  {
    assert Parent(root + k) == root + Parent(k) && Last(root + k) == Last(k);
  }

  lemma StoreThere(m: Tree, root: Path, k: Path, v: Node, watch: Path)
    requires Absent(m, watch) && Apart(watch, root)
    ensures Outside(m[root + k := v], root) == Outside(m, root)
    ensures Sub(m[root + k := v], root) == Sub(m, root)[k := v]
    ensures Absent(m[root + k := v], watch)
  {
    UpdateInside(m, root + k, v, root);
    assert (root + k)[|root|..] == k;
    ApartBelow(watch, root, root + k);
  }

  method MkdirIn(fs: FileSystem, root: Path, k: Path, mode: Mode) returns (ok: bool)
    requires Unwatched(fs, root)
    modifies fs
    ensures Within(fs, root)
    ensures ok ==> Sub(fs.m, root) == Sub(old(fs.m), root)[k := Dir(mode)] && fs.faults == old(fs.faults)
    ensures !ok ==> fs.m == old(fs.m) && (fs.faults > old(fs.faults) || !CanCreateIn(Sub(fs.m, root), k))
  {
    StoreThere(fs.m, root, k, Dir(mode), fs.watch);
    if CanCreateIn(Sub(fs.m, root), k) {
      CanCreateThere(fs.m, root, k);
    }
    ok := fs.Mkdir(root + k, mode);
  }

  method CreateIn(fs: FileSystem, root: Path, k: Path, mode: Mode) returns (ok: bool)
    requires Unwatched(fs, root)
    modifies fs
    ensures Within(fs, root)
    ensures ok ==> Sub(fs.m, root) == Sub(old(fs.m), root)[k := File(mode, [])] && fs.faults == old(fs.faults)
    ensures ok ==> k !in Sub(old(fs.m), root)
    ensures !ok ==> fs.m == old(fs.m) && (fs.faults > old(fs.faults) || !CanCreateIn(Sub(fs.m, root), k))
  {
    StoreThere(fs.m, root, k, File(mode, []), fs.watch);
    if CanCreateIn(Sub(fs.m, root), k) {
      CanCreateThere(fs.m, root, k);
    }
    ok := fs.CreateExclusive(root + k, mode);
  }

  method ChmodIn(fs: FileSystem, root: Path, k: Path, mode: Mode) returns (ok: bool)
    requires Unwatched(fs, root) && k in Sub(fs.m, root)
    modifies fs
    ensures Within(fs, root)
    ensures ok ==> Sub(fs.m, root) == Sub(old(fs.m), root)[k := Sub(old(fs.m), root)[k].(mode := mode)]
    ensures ok ==> fs.faults == old(fs.faults)
    ensures !ok ==> fs.m == old(fs.m) && fs.faults > old(fs.faults)
  {
    StoreThere(fs.m, root, k, Sub(fs.m, root)[k].(mode := mode), fs.watch);
    ok := fs.Chmod(root + k, mode);
  }

  method SetDataIn(fs: FileSystem, root: Path, k: Path, data: Bytes)
    requires Unwatched(fs, root) && k in Sub(fs.m, root) && Sub(fs.m, root)[k].File?
    modifies fs`m, fs`intact
    ensures Within(fs, root) && fs.faults == old(fs.faults)
    ensures Sub(fs.m, root) == Sub(old(fs.m), root)[k := Sub(old(fs.m), root)[k].(data := data)]
  {
    StoreThere(fs.m, root, k, Sub(fs.m, root)[k].(data := data), fs.watch);
    fs.SetData(root + k, data);
  }

  /** `fsync` of a file inside `root`. */
  method SyncIn(fs: FileSystem, root: Path, k: Path) returns (ok: bool)
    requires Unwatched(fs, root)
    modifies fs`faults, fs.disk
    ensures Within(fs, root) && (ok <==> fs.faults == old(fs.faults)) && old(fs.disk.flushed) <= fs.disk.flushed
    ensures ok && k in Sub(fs.m, root) && Sub(fs.m, root)[k].File? ==>
      Durable(root + k, Sub(fs.m, root)[k].data) in fs.disk.flushed
  {
    ok := fs.Sync(root + k);
  }

  /** Removing the whole directory restores the state before it was created. */
  method RemoveAllAt(fs: FileSystem, root: Path) returns (ok: bool)
    requires Unwatched(fs, root) && root != []
    modifies fs
    ensures Within(fs, root)
    ensures ok ==> fs.m == Outside(old(fs.m), root) && fs.faults == old(fs.faults)
    ensures !ok ==> fs.faults > old(fs.faults) || !Removable(old(fs.m), root)
    ensures Submap(fs.m, old(fs.m))
  {
    ok := fs.RemoveAll(root);
  }

  /** `os.Remove` of an entry. */
  method RemoveAt(fs: FileSystem, root: Path) returns (ok: bool)
    requires Unwatched(fs, root) && root != []
    modifies fs
    ensures Within(fs, root)
    ensures ok ==> fs.m == Outside(old(fs.m), root) && fs.faults == old(fs.faults)
    ensures !ok ==> fs.m == old(fs.m)
    ensures !ok ==> fs.faults > old(fs.faults) || !IsLeaf(fs.m, root) || !OwnerWritable(fs.m[Parent(root)].mode)
  {
    OutsideTwice(fs.m, root, root);
    ok := fs.Remove(root);
  }

  /** Removing one entry inside a directory, if that is possible at all. */
  method TryRemoveIn(fs: FileSystem, root: Path, k: Path) returns (ok: bool)
    requires Unwatched(fs, root)
    modifies fs
    ensures Within(fs, root)
    ensures ok ==> Sub(fs.m, root) == Outside(Sub(old(fs.m), root), k)
    ensures ok ==> k in Sub(old(fs.m), root) && fs.faults == old(fs.faults)
    ensures !ok ==> fs.m == old(fs.m)
  {
    RemoveThere(fs.m, root, k);
    ok := fs.Remove(root + k);
  }

  lemma RemoveThere(m: Tree, root: Path, k: Path)
    ensures Sub(Outside(m, root + k), root) == Outside(Sub(m, root), k)
    ensures Outside(Outside(m, root + k), root) == Outside(m, root)
    ensures root + k in m <==> k in Sub(m, root)
  {
    OutsideTwice(m, root + k, root);
    forall j
      ensures root + k <= root + j <==> k <= j
    {
      assert (root + j)[|root|..] == j && (root + k)[|root|..] == k;
      if k <= j {
        assert root + j == (root + k) + j[|k|..];
      }
      if root + k <= root + j {
        assert (root + j)[..|root + k|] == root + k;
        assert j[..|k|] == (root + j)[|root|..|root + k|];
      }
    }
  }

  // ----- Directories on the way -----

  ghost function Prefixes(k: Path): set<Path> {
    set n | 1 <= n <= |k| :: k[..n]
  }

  /** A tree with the missing directories on the way to `k`, and `k` itself, added. */
  ghost function WithDirs(t: Tree, k: Path): Tree {
    map q | q in t.Keys + Prefixes(k) :: if q in t then t[q] else Dir(PRIVATE_DIR)
  }

  /** What may be left of such an attempt. */
  ghost predicate SomeDirsAdded(t: Tree, u: Tree, k: Path) {
    && (forall q :: q in t ==> q in u && u[q] == t[q])
    && (forall q :: q in u ==> q in t || (q in Prefixes(k) && u[q] == Dir(PRIVATE_DIR)))
  }

  /** Nothing but directories stands on the way to `k`. */
  ghost predicate WayClear(t: Tree, k: Path) {
    && [] in t && t[[]].Dir?
    && forall q :: q in Prefixes(k) && q in t ==> t[q].Dir?
  }

  lemma {:induction false} CanMakeAllThere(m: Tree, root: Path, k: Path)
    requires WayClear(Sub(m, root), k) && OpenDirs(Sub(m, root)) && Creatable(k)
    ensures CanMakeAll(m, root + k)
    decreases |k|
  {
    assert root + [] == root;
    if k != [] {
      assert k[..|k|] == k;
      assert k in Prefixes(k);
      assert Parent(root + k) == root + Parent(k) && Last(root + k) == Last(k);
      forall q | q in Prefixes(Parent(k))
        ensures q in Prefixes(k)
      {
        var n :| 1 <= n <= |k| - 1 && Parent(k)[..n] == q;
        assert k[..n] == q;
      }
      CanMakeAllThere(m, root, Parent(k));
    } else {
      assert root in m && m[root] == Sub(m, root)[[]];
    }
  }

  method MkdirAllIn(fs: FileSystem, root: Path, k: Path) returns (ok: bool)
    requires Unwatched(fs, root) && root in fs.m
    requires WayClear(Sub(fs.m, root), k) && OpenDirs(Sub(fs.m, root)) && Creatable(k)
    modifies fs
    ensures Within(fs, root)
    ensures ok <==> fs.faults == old(fs.faults)
    ensures ok ==> Sub(fs.m, root) == WithDirs(Sub(old(fs.m), root), k)
    ensures SomeDirsAdded(Sub(old(fs.m), root), Sub(fs.m, root), k)
  {
    WritablePrivateDir();
    CanMakeAllThere(fs.m, root, k);
    ApartBelow(fs.watch, root, root + k);
    ok := fs.MkdirAll(root + k, PRIVATE_DIR);
    DirsAddedThere(old(fs.m), fs.m, root, k);
  }

  /** A directory added on the way to something below `root` is itself below it. */
  lemma AddedBelow(a: Tree, b: Tree, root: Path, k: Path, q: Path)
    requires Rooted(a) && root in a && DirsAdded(a, b, root + k, PRIVATE_DIR)
    requires q in b && q !in a
    ensures root <= q && q[|root|..] in Prefixes(k) && b[q] == Dir(PRIVATE_DIR)
  {
    PrefixesComparable(root, q, root + k);
    if q <= root {
      AncestorPresent(a, root, q);
    }
    assert q == (root + k)[..|q|];
    assert q[|root|..] == k[..|q| - |root|];
  }

  /** If `root + k` exists, so does everything between the two. */
  lemma PrefixesPresent(b: Tree, root: Path, k: Path, q: Path)
    requires Rooted(b) && root + k in b && q in Prefixes(k)
    ensures q in Sub(b, root)
  {
    var n :| 1 <= n <= |k| && k[..n] == q;
    assert root + q == (root + k)[..|root| + n];
    AncestorPresent(b, root + k, root + q);
  }

  lemma DirsAddedThere(a: Tree, b: Tree, root: Path, k: Path)
    requires Rooted(a) && Rooted(b) && root in a && DirsAdded(a, b, root + k, PRIVATE_DIR)
    ensures Outside(b, root) == Outside(a, root)
    ensures SomeDirsAdded(Sub(a, root), Sub(b, root), k)
    ensures root + k in b ==> Sub(b, root) == WithDirs(Sub(a, root), k)
  {
    forall q | q in b && q !in a
      ensures root <= q && q[|root|..] in Prefixes(k) && b[q] == Dir(PRIVATE_DIR)
    {
      AddedBelow(a, b, root, k, q);
    }
    forall q | q in Sub(b, root) && q !in Sub(a, root)
      ensures q in Prefixes(k) && Sub(b, root)[q] == Dir(PRIVATE_DIR)
    {
      assert (root + q)[|root|..] == q;
    }
    if root + k in b {
      forall q | q in Prefixes(k)
        ensures q in Sub(b, root)
      {
        PrefixesPresent(b, root, k, q);
      }
    }
  }

  lemma AncestorPresent(m: Tree, p: Path, q: Path)
    requires Rooted(m) && p in m && q <= p
    ensures q in m
  {
    assert q == p[..|q|];
    if |q| < |p| {
      AncestorsAreDirs(m, p, |q|);
    } else {
      assert q == p;
    }
  }

  // ----- Renaming a file -----

  lemma MovedFileAt(m: Tree, a: Path, b: Path, p: Path)
    requires Rooted(m) && a in m && m[a].File? && b !in m
    ensures p in Moved(m, a, b) <==> (p in m && !(a <= p)) || p == b
    ensures p in Moved(m, a, b) ==> Moved(m, a, b)[p] == if p == b then m[a] else m[p]
  {
    FileIsLeaf(m, a);
    AbsentBelow(m, b);
    MovedAt(m, a, b, p);
    if b <= p {
      var rest := p[|b|..];
      assert rest != [] ==> a < a + rest;
      assert rest == [] ==> p == b && a + rest == a;
    }
  }

  lemma MovedFile(m: Tree, a: Path, b: Path)
    requires Rooted(m) && a in m && m[a].File? && b !in m
    ensures Moved(m, a, b) == Outside(m, a)[b := m[a]]
  {
    hide Moved;
    forall p
      ensures p in Moved(m, a, b) <==> (p in m && !(a <= p)) || p == b
      ensures p in Moved(m, a, b) ==> Moved(m, a, b)[p] == if p == b then m[a] else m[p]
    {
      MovedFileAt(m, a, b, p);
    }
  }

  lemma RenamedFile(m: Tree, root: Path, k: Path, l: Path)
    requires Rooted(m) && root + k in m && m[root + k].File? && root + l !in m
    ensures Outside(Moved(m, root + k, root + l), root) == Outside(m, root)
    ensures Sub(Moved(m, root + k, root + l), root) == Outside(Sub(m, root), k)[l := Sub(m, root)[k]]
  {
    MovedFile(m, root + k, root + l);
    RemoveThere(m, root, k);
    UpdateInside(Outside(m, root + k), root + l, m[root + k], root);
    assert (root + l)[|root|..] == l;
  }

  lemma FileMoved(flushed: set<Flush>, a: Path, b: Path, data: Bytes)
    ensures Durable(a, data) in flushed ==> Durable(b, data) in Rebased(flushed, a, b)
  {
    if Durable(a, data) in flushed {
      assert a + [] == a && b + [] == b;
      FlushMoved(Durable(a, data), [], a, b, flushed);
    }
  }

  /** `os.Rename` of a file to a free name in the same directory. */
  method RenameIn(fs: FileSystem, root: Path, k: Path, l: Path) returns (ok: bool)
    requires Unwatched(fs, root) && k in Sub(fs.m, root) && Sub(fs.m, root)[k].File?
    requires k != [] && l != [] && k != l && Parent(k) == Parent(l)
    modifies fs, fs.disk
    ensures Within(fs, root) && old(fs.disk.flushed) <= fs.disk.flushed
    ensures ok && Durable(root + k, Sub(old(fs.m), root)[k].data) in old(fs.disk.flushed) ==>
      Durable(root + l, Sub(old(fs.m), root)[k].data) in fs.disk.flushed
    ensures ok ==>
      l !in Sub(old(fs.m), root) && Sub(fs.m, root) == Outside(Sub(old(fs.m), root), k)[l := Sub(old(fs.m), root)[k]]
    ensures ok ==> fs.faults == old(fs.faults)
    ensures !ok ==> fs.m == old(fs.m)
    ensures !ok ==>
      fs.faults > old(fs.faults) || l in Sub(fs.m, root) || !CanHold(Sub(fs.m, root), Parent(l)) || !Creatable(l)
  {
    assert Parent(root + k) == root + Parent(k) && Parent(root + l) == root + Parent(l) && Last(root + l) == Last(l);
    assert (root + k)[|root|..] == k && (root + l)[|root|..] == l;
    if root + l !in fs.m {
      RenamedFile(fs.m, root, k, l);
      forall p | p in Moved(fs.m, root + k, root + l)
        ensures !(fs.watch <= p)
      {
        if root <= p {
          ApartBelow(fs.watch, root, p);
        } else {
          OutsideAgrees(Moved(fs.m, root + k, root + l), fs.m, root, p);
        }
      }
    }
    assert !Normal(Last(l)) || ByteLen(Last(l)) > MAX_COMPONENT ==> !Creatable(l);
    FileMoved(fs.disk.flushed, root + k, root + l, Sub(fs.m, root)[k].data);
    ok := fs.Rename(root + k, root + l);
  }

  /** A directory in which entries can be created and removed. */
  predicate CanHold(t: Tree, d: Path) {
    d in t && t[d].Dir? && OwnerWritable(t[d].mode)
  }
}
