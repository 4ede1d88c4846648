/**
 The modes of a published tree: files first, then directories from the inside
 out (`PublishContext` of internal/output/staging.go).
 */
module Sealing {
  import opened Basics
  import opened Text
  import opened Sorting
  import opened PosixPath
  import opened Streams
  import opened FileSystems
  import opened Confined

  function WithMode(v: Node, mode: Mode): Node {
    match v
    case Dir(_) => Dir(mode)
    case File(_, data) => File(mode, data)
  }

  /** Some entries with another mode. */
  function Chmodded(t: Tree, ks: set<Path>, mode: Mode): Tree {
    map k | k in t :: if k in ks then WithMode(t[k], mode) else t[k]
  }

  function FilesOf(t: Tree): set<Path> {
    set k | k in t && t[k].File?
  }

  function DirsOf(t: Tree): set<Path> {
    set k | k in t && t[k].Dir?
  }

  /** Every file and every directory with its published mode; the contents as they were. */
  function Sealed(t: Tree, fileMode: Mode, dirMode: Mode): Tree {
    map k | k in t :: WithMode(t[k], if t[k].Dir? then dirMode else fileMode)
  }

  lemma SealedInSteps(t: Tree, fileMode: Mode, dirMode: Mode)
    ensures Chmodded(Chmodded(t, FilesOf(t), fileMode), DirsOf(t), dirMode) == Sealed(t, fileMode, dirMode)
  {
  }

  /** Modes are all that sealing changes. */
  lemma ChmoddedRemains(t: Tree, ks: set<Path>, mode: Mode)
    ensures Remains(t, Chmodded(t, ks, mode))
  {
  }

  lemma ChmodOne(t: Tree, ks: set<Path>, k: Path, mode: Mode)
    requires k in t
    ensures var u := Chmodded(t, ks, mode);
      k in u && u[k := u[k].(mode := mode)] == Chmodded(t, ks + {k}, mode)
  {
  }

  /** What the walk collects on the way, and what it has done so far. */
  ghost predicate Walked(t: Tree, seen: set<Path>, dirs: seq<Path>) {
    && seen <= t.Keys
    && (forall p :: p in dirs <==> p in seen && t[p].Dir?)
    && (forall i, j :: 0 <= i < j < |dirs| ==> dirs[i] != dirs[j])
  }

  lemma WalkedMore(t: Tree, seen: set<Path>, dirs: seq<Path>, k: Path)
    requires Walked(t, seen, dirs) && k in t && k !in seen
    ensures Walked(t, seen + {k}, if t[k].Dir? then dirs + [k] else dirs)
  {
  }

  /** One step of the walk: a file is sealed, a directory is remembered. */
  method WalkStep(
    ctx: Context, fs: FileSystem, root: Path, k: Path, mode: Mode, ghost t: Tree, ghost seen: set<Path>, dirs: seq<Path>
  )
    returns (ok: bool, more: seq<Path>)
    requires Unwatched(fs, root) && k in t && k !in seen && Walked(t, seen, dirs)
    requires Sub(fs.m, root) == Chmodded(t, seen * FilesOf(t), mode)
    modifies ctx, fs
    ensures old(ctx.done) ==> ctx.done
    ensures Within(fs, root)
    ensures ok ==> Walked(t, seen + {k}, more) && fs.faults == old(fs.faults)
    ensures ok ==> Sub(fs.m, root) == Chmodded(t, (seen + {k}) * FilesOf(t), mode)
    ensures !ok ==> (ctx.done || fs.faults > old(fs.faults)) && Sub(fs.m, root) == Sub(old(fs.m), root)
  {
    ChmodOne(t, seen * FilesOf(t), k, mode);
    WalkedMore(t, seen, dirs, k);
    hide Outside, Sub, Unwatched, Chmodded, Walked;
    more := dirs;
    var canceled := ctx.Err();
    ok := !canceled;
    if ok {
      assert k in Sub(fs.m, root);
      var info := fs.Lstat(root + k);
      ok := info == Present;
    }
    if ok {
      if InspectDir(fs, root, k) {
        more := dirs + [k];
        assert (seen + {k}) * FilesOf(t) == seen * FilesOf(t) by {
          assert t[k].Dir?;
        }
      } else {
        assert (seen + {k}) * FilesOf(t) == seen * FilesOf(t) + {k};
        ok := ChmodIn(fs, root, k, mode);
      }
    }
  }

  predicate InspectDir(fs: FileSystem, root: Path, k: Path)
    reads fs`m
  {
    k in Sub(fs.m, root) && Sub(fs.m, root)[k].Dir?
  }

  /** The walk over the whole tree, in an order this model does not fix. */
  method SealFiles(
    ctx: Context, fs: FileSystem, root: Path, fileMode: Mode, ghost dirMode: Mode
  ) returns (ok: bool, dirs: seq<Path>)
    requires Unwatched(fs, root)
    modifies ctx, fs
    ensures old(ctx.done) ==> ctx.done
    ensures Within(fs, root)
    ensures ok ==> Walked(Sub(old(fs.m), root), Sub(old(fs.m), root).Keys, dirs) && fs.faults == old(fs.faults)
    ensures ok ==> Sub(fs.m, root) == Chmodded(Sub(old(fs.m), root), FilesOf(Sub(old(fs.m), root)), fileMode)
    ensures !ok ==> ctx.done || fs.faults > old(fs.faults)
    ensures Remains(Sub(old(fs.m), root), Sub(fs.m, root))
    ensures NoDirHas(Sub(old(fs.m), root), dirMode) ==> NoDirHas(Sub(fs.m, root), dirMode)
  {
    ghost var t := Sub(fs.m, root);
    ok, dirs := true, [];
    var todo := Sub(fs.m, root).Keys;
    ghost var seen: set<Path> := {};
    assert Chmodded(t, {}, fileMode) == t;
    assert seen * FilesOf(t) == {};
    hide Outside, Sub, Unwatched, Chmodded, FilesOf;
    while ok && todo != {}
      invariant old(ctx.done) ==> ctx.done
      invariant Within(fs, root)
      invariant seen + todo == t.Keys && seen !! todo && Walked(t, seen, dirs)
      invariant Sub(fs.m, root) == Chmodded(t, seen * FilesOf(t), fileMode)
      invariant ok ==> fs.faults == old(fs.faults)
      invariant !ok ==> ctx.done || fs.faults > old(fs.faults)
      decreases ok, todo
    {
      var k :| k in todo;
      var more;
      ok, more := WalkStep(ctx, fs, root, k, fileMode, t, seen, dirs);
      if ok {
        dirs, todo, seen := more, todo - {k}, seen + {k};
      }
    }
    AllSeen(t, seen, fileMode, dirMode);
    ChmoddedRemains(t, seen * FilesOf(t), fileMode);
  }

  /** Sealing files leaves the directories as they were. */
  lemma AllSeen(t: Tree, seen: set<Path>, fileMode: Mode, dirMode: Mode)
    ensures t.Keys * FilesOf(t) == FilesOf(t)
    ensures NoDirHas(t, dirMode) ==> NoDirHas(Chmodded(t, seen * FilesOf(t), fileMode), dirMode)
  {
  }

  // ----- Directories from the inside out -----

  /** The length of a path below a fixed root, as a string. */
  function PathLen(k: Path): nat {
    if k == [] then 0 else 1 + ByteLen(Join(k))
  }

  predicate NotShorter(p: Path, q: Path) {
    PathLen(p) >= PathLen(q)
  }

  /** Anything inside a directory has a longer path. */
  lemma InsideIsLonger(p: Path, q: Path)
    requires p < q
    ensures PathLen(p) < PathLen(q)
  {
    if p != [] {
      var rest := q[|p|..];
      assert q == p + rest;
      JoinConcat(p, rest);
      ByteLenConcat(Join(p) + "/", Join(rest));
      ByteLenConcat(Join(p), "/");
    }
  }

  /** So a list sorted by falling length has every directory after all directories inside it. */
  lemma InsideOutOrder(dirs: seq<Path>, i: nat, j: nat)
    requires SortedBy(NotShorter, dirs) && i < |dirs| && j < |dirs| && dirs[i] < dirs[j]
    ensures j < i
  {
    InsideIsLonger(dirs[i], dirs[j]);
  }

  /** Once a directory has its published mode, so have all directories inside it. */
  ghost predicate InsideOut(t: Tree, dirMode: Mode) {
    forall d, e :: d in t && e in t && t[d].Dir? && t[e].Dir? && d <= e && t[d].mode == dirMode ==> t[e].mode == dirMode
  }

  ghost predicate NoDirHas(t: Tree, mode: Mode) {
    forall k :: k in t && t[k].Dir? ==> t[k].mode != mode
  }

  lemma PrefixSealed(t: Tree, dirs: seq<Path>, n: nat, dirMode: Mode)
    requires SortedBy(NotShorter, dirs) && n <= |dirs| && (forall p :: p in dirs <==> p in DirsOf(t))
    requires NoDirHas(t, dirMode)
    ensures InsideOut(Chmodded(t, Elements(dirs[..n]), dirMode), dirMode)
  {
    var u := Chmodded(t, Elements(dirs[..n]), dirMode);
    forall d, e | d in u && e in u && u[d].Dir? && u[e].Dir? && d <= e && u[d].mode == dirMode
      ensures u[e].mode == dirMode
    {
      assert d in dirs[..n] && e in dirs;
      var i :| 0 <= i < n && dirs[i] == d;
      var j :| 0 <= j < |dirs| && dirs[j] == e;
      assert d == e || d < e;
      if d < e {
        InsideOutOrder(dirs, i, j);
        assert dirs[..n][j] == e;
      }
    }
  }

  /** The names of a tree at `root` that lie in some of its directories have been forced out. */
  ghost predicate NamesSaved(names: set<Path>, root: Path, dirs: set<Path>, flushed: set<Flush>) {
    forall k {:trigger Reachable(root + k)} :: k in names && k != [] && Parent(k) in dirs ==>
      Reachable(root + k) in flushed
  }

  lemma NamesLater(names: set<Path>, root: Path, ds: set<Path>, es: set<Path>, flushed: set<Flush>, more: set<Flush>)
    requires NamesSaved(names, root, ds, flushed) && NamesSaved(names, root, es, more) && flushed <= more
    ensures NamesSaved(names, root, ds + es, more)
  {
  }

  lemma DirFlushed(m: Tree, root: Path, k: Path)
    requires k in Sub(m, root) && Sub(m, root)[k].Dir?
    ensures NamesSaved(Sub(m, root).Keys, root, {k}, FlushOf(m, root + k))
  {
    forall j | j in Sub(m, root) && j != [] && Parent(j) == k
      ensures Reachable(root + j) in FlushOf(m, root + k)
    {
      assert Parent(root + j) == root + Parent(j);
    }
  }

  /** Once every directory has been dealt with, every name has. */
  lemma AllLinked(m: Tree, root: Path, flushed: set<Flush>)
    requires Rooted(m) && NamesSaved(Sub(m, root).Keys, root, DirsOf(Sub(m, root)), flushed)
    ensures Linked(Sub(m, root), root, flushed)
  {
    forall k | k in Sub(m, root) && k != []
      ensures Reachable(root + k) in flushed
    {
      assert Parent(root + k) == root + Parent(k);
      assert Parent(k) in DirsOf(Sub(m, root));
    }
  }

  method SealDir(ctx: Context, fs: FileSystem, root: Path, k: Path, mode: Mode) returns (ok: bool)
    requires Unwatched(fs, root) && k in Sub(fs.m, root) && Sub(fs.m, root)[k].Dir?
    modifies ctx, fs, fs.disk
    ensures old(ctx.done) ==> ctx.done
    ensures Within(fs, root) && old(fs.disk.flushed) <= fs.disk.flushed
    ensures ok ==> NamesSaved(Sub(fs.m, root).Keys, root, {k}, fs.disk.flushed)
    ensures ok ==> fs.faults == old(fs.faults)
    ensures !ok ==> ctx.done || fs.faults > old(fs.faults)
    ensures
      || Sub(fs.m, root) == Sub(old(fs.m), root)
      || Sub(fs.m, root) == Sub(old(fs.m), root)[k := WithMode(Sub(old(fs.m), root)[k], mode)]
    ensures ok ==> Sub(fs.m, root) == Sub(old(fs.m), root)[k := WithMode(Sub(old(fs.m), root)[k], mode)]
  {
    hide Outside, Sub, Unwatched, FlushOf;
    var canceled := ctx.Err();
    ok := !canceled;
    if ok {
      ok := ChmodIn(fs, root, k, mode);
    }
    if ok {
      DirFlushed(fs.m, root, k);
      var synced := fs.Sync(root + k);
      var closed := fs.Close();
      ok := synced && closed;
    }
  }

  /** The loop over the directories, longest path first. */
  method SealDirs(
    ctx: Context, fs: FileSystem, root: Path, dirs: seq<Path>, dirMode: Mode
  ) returns (ok: bool, ghost n: nat)
    requires Unwatched(fs, root) && forall p :: p in dirs ==> p in Sub(fs.m, root) && Sub(fs.m, root)[p].Dir?
    modifies ctx, fs, fs.disk
    ensures old(ctx.done) ==> ctx.done
    ensures Within(fs, root) && n <= |dirs| && old(fs.disk.flushed) <= fs.disk.flushed
    ensures ok ==> NamesSaved(Sub(fs.m, root).Keys, root, Elements(dirs), fs.disk.flushed)
    ensures ok ==> n == |dirs| && fs.faults == old(fs.faults)
    ensures !ok ==> ctx.done || fs.faults > old(fs.faults)
    ensures Sub(fs.m, root) == Chmodded(Sub(old(fs.m), root), Elements(dirs[..n]), dirMode)
  {
    ghost var t := Sub(fs.m, root);
    assert Elements(dirs[..0]) == {} && Chmodded(t, {}, dirMode) == t;
    assert NamesSaved(t.Keys, root, {}, fs.disk.flushed);
    assert forall ks :: Chmodded(t, ks, dirMode).Keys == t.Keys;
    hide Outside, Sub, Unwatched, Chmodded, Elements, NamesSaved;
    ok, n := true, 0;
    var i := 0;
    while ok && i < |dirs|
      invariant 0 <= n <= i <= |dirs|
      invariant old(ctx.done) ==> ctx.done
      invariant Within(fs, root)
      invariant Sub(fs.m, root) == Chmodded(t, Elements(dirs[..n]), dirMode)
      invariant old(fs.disk.flushed) <= fs.disk.flushed
      invariant ok ==> NamesSaved(t.Keys, root, Elements(dirs[..n]), fs.disk.flushed)
      invariant ok ==> n == i && fs.faults == old(fs.faults)
      invariant !ok ==> ctx.done || fs.faults > old(fs.faults)
      decreases ok, |dirs| - i
    {
      NextSealed(t, dirs, i, dirMode);
      ghost var before, flushed := Sub(fs.m, root), fs.disk.flushed;
      ok := SealDir(ctx, fs, root, dirs[i], dirMode);
      if ok {
        NamesLater(t.Keys, root, Elements(dirs[..i]), {dirs[i]}, flushed, fs.disk.flushed);
      }
      if ok || Sub(fs.m, root) != before {
        n := i + 1;
      }
      i := i + 1;
    }
    assert dirs[..|dirs|] == dirs;
  }

  lemma NextSealed(t: Tree, dirs: seq<Path>, i: nat, mode: Mode)
    requires i < |dirs| && forall p :: p in dirs ==> p in t && t[p].Dir?
    ensures Chmodded(t, Elements(dirs[..i]), mode).Keys == t.Keys
    ensures Elements(dirs[..i + 1]) == Elements(dirs[..i]) + {dirs[i]}
    ensures var u := Chmodded(t, Elements(dirs[..i]), mode);
      && dirs[i] in u && u[dirs[i]].Dir?
      && u[dirs[i] := WithMode(u[dirs[i]], mode)] == Chmodded(t, Elements(dirs[..i + 1]), mode)
  {
    assert dirs[i] in dirs;
    ChmodOne(t, Elements(dirs[..i]), dirs[i], mode);
    assert dirs[..i + 1] == dirs[..i] + [dirs[i]];
    assert Elements(dirs[..i + 1]) == Elements(dirs[..i]) + {dirs[i]};
  }

  lemma LengthOrder()
    ensures TotalPreorder(NotShorter)
  {
  }

  /** Sorting the directories by falling length, and sealing them in that order. */
  method SealSorted(ctx: Context, fs: FileSystem, root: Path, dirs: seq<Path>, dirMode: Mode) returns (ok: bool)
    requires Unwatched(fs, root) && forall p :: p in dirs <==> p in DirsOf(Sub(fs.m, root))
    modifies ctx, fs, fs.disk
    ensures old(ctx.done) ==> ctx.done
    ensures Within(fs, root) && old(fs.disk.flushed) <= fs.disk.flushed
    ensures ok ==> Linked(Sub(fs.m, root), root, fs.disk.flushed)
    ensures ok ==> fs.faults == old(fs.faults)
    ensures ok ==> Sub(fs.m, root) == Chmodded(Sub(old(fs.m), root), DirsOf(Sub(old(fs.m), root)), dirMode)
    ensures !ok ==> ctx.done || fs.faults > old(fs.faults)
    ensures Remains(Sub(old(fs.m), root), Sub(fs.m, root))
    ensures NoDirHas(Sub(old(fs.m), root), dirMode) ==> InsideOut(Sub(fs.m, root), dirMode)
  {
    LengthOrder();
    SortSorted(NotShorter, dirs);
    SortElements(NotShorter, dirs);
    var sorted := Sort(NotShorter, dirs);
    assert forall p :: p in sorted <==> p in DirsOf(Sub(fs.m, root));
    ghost var t := Sub(fs.m, root);
    hide Outside, Sub, Unwatched, Chmodded, Sort, NamesSaved, Linked;
    ghost var n;
    ok, n := SealDirs(ctx, fs, root, sorted, dirMode);
    ChmoddedRemains(t, Elements(sorted[..n]), dirMode);
    if NoDirHas(t, dirMode) {
      PrefixSealed(t, sorted, n, dirMode);
    }
    assert sorted[..|sorted|] == sorted;
    assert Elements(sorted) == DirsOf(t);
    if ok {
      DirsKept(t, Elements(sorted[..n]), dirMode);
      AllLinked(fs.m, root, fs.disk.flushed);
    }
  }

  lemma DirsKept(t: Tree, ks: set<Path>, mode: Mode)
    ensures DirsOf(Chmodded(t, ks, mode)) == DirsOf(t)
  {
  }

  /**
   Sealing a tree. When it succeeds every entry has its published mode. However far
   it gets, no directory is read-only before all directories inside it.
   */
  method SealTree(ctx: Context, fs: FileSystem, root: Path, fileMode: Mode, dirMode: Mode) returns (ok: bool)
    requires Unwatched(fs, root)
    modifies ctx, fs, fs.disk
    ensures old(ctx.done) ==> ctx.done
    ensures Within(fs, root) && old(fs.disk.flushed) <= fs.disk.flushed
    ensures ok ==> Linked(Sub(fs.m, root), root, fs.disk.flushed)
    ensures ok ==> Sub(fs.m, root) == Sealed(Sub(old(fs.m), root), fileMode, dirMode) && fs.faults == old(fs.faults)
    ensures !ok ==> ctx.done || fs.faults > old(fs.faults)
    ensures Remains(Sub(old(fs.m), root), Sub(fs.m, root))
    ensures NoDirHas(Sub(old(fs.m), root), dirMode) ==> InsideOut(Sub(fs.m, root), dirMode)
  {
    ghost var t := Sub(fs.m, root);
    SealedInSteps(t, fileMode, dirMode);
    SameDirs(t, fileMode);
    var dirs;
    ok, dirs := SealFiles(ctx, fs, root, fileMode, dirMode);
    hide Outside, Sub, Unwatched, Chmodded, Sealed, FilesOf, Remains, Linked;
    if ok {
      ghost var u := Sub(fs.m, root);
      ok := SealSorted(ctx, fs, root, dirs, dirMode);
      RemainsTransitive(t, u, Sub(fs.m, root));
    }
  }

  lemma SameDirs(t: Tree, fileMode: Mode)
    ensures DirsOf(Chmodded(t, FilesOf(t), fileMode)) == DirsOf(t)
    ensures forall p :: p in DirsOf(t) <==> p in t.Keys && t[p].Dir?
  {
  }
}
