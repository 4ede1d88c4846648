/** Publishing a staging directory, and giving it up: internal/output/staging.go. */
module Publishing {
  import opened PosixPath
  import opened Streams
  import opened FileSystems
  import opened Confined
  import opened Sealing

  const APPROVED := "approved"
  const MANIFEST := "manifest.json"

  // ----- What is published -----

  /** A directory that holds exactly `approved` and `manifest.json`. */
  predicate Listing(t: Tree) {
    && [] in t && t[[]].Dir?
    && [APPROVED] in t && t[[APPROVED]].Dir? && [MANIFEST] in t && t[[MANIFEST]].File?
    && forall k :: k in t && |k| == 1 ==> k[0] == APPROVED || k[0] == MANIFEST
  }

  ghost predicate AllModes(t: Tree, fileMode: Mode, dirMode: Mode) {
    forall k :: k in t ==> t[k].mode == if t[k].Dir? then dirMode else fileMode
  }

  /** An onlooker at the published path who is content to see exactly this tree there. */
  ghost predicate Accepts(fs: FileSystem, s: Tree) {
    forall t: Tree {:trigger fs.calm(t)} :: Sub(t, fs.watch) == s ==> fs.calm(t)
  }

  /** One who is not content with a directory there that is not sealed. */
  ghost predicate Exacting(fs: FileSystem, dirMode: Mode) {
    forall t: Tree {:trigger fs.calm(t)} :: fs.calm(t) && fs.watch in t && t[fs.watch].Dir? ==>
      t[fs.watch].mode == dirMode
  }

  lemma SealedComplete(t: Tree, fileMode: Mode, dirMode: Mode)
    requires Listing(t)
    ensures Listing(Sealed(t, fileMode, dirMode)) && AllModes(Sealed(t, fileMode, dirMode), fileMode, dirMode)
  {
  }

  /** What happens inside the staging directory does not take the final name. */
  lemma StillFree(m: Tree, n: Tree, path: Path, final: Path)
    requires Outside(m, path) == Outside(n, path) && path != [] && Apart(final, path)
    requires CanCreate(m, final) && Parent(path) == Parent(final)
    ensures CanCreate(n, final)
  {
    OutsideAgrees(m, n, path, final);
    OutsideAgrees(m, n, path, Parent(final));
  }

  /** A tree that a crash cannot take away: every byte, every name in it, and its own name. */
  ghost predicate OnDisk(m: Tree, final: Path, flushed: set<Flush>) {
    && Saved(Sub(m, final), final, flushed) && Linked(Sub(m, final), final, flushed)
    && Reachable(final) in flushed
  }

  /** A file of a complete tree is the manifest or lies among the approved ones. */
  lemma ApprovedOrManifest(m: Tree, path: Path, k: Path)
    requires Rooted(m) && Listing(Sub(m, path)) && k in Sub(m, path) && Sub(m, path)[k].File? && k != [MANIFEST]
    ensures k != [] && k[0] == APPROVED
  {
    if |k| > 1 {
      AncestorsAreDirs(m, path + k, |path| + 1);
      assert (path + k)[..|path| + 1] == path + [k[0]];
      assert [k[0]] in Sub(m, path) && [k[0]][0] == k[0];
    }
  }

  lemma BelowApproved(m: Tree, path: Path, k: Path, name: string)
    requires k != [] && k[0] == name && k in Sub(m, path)
    ensures path + k == (path + [name]) + k[1..] && k[1..] in Sub(m, path + [name])
    ensures Sub(m, path + [name])[k[1..]] == Sub(m, path)[k]
  {
    hide Sub;
    assert path + k == (path + [name]) + k[1..];
  }

  /** With the approved files and the manifest, everything in a complete tree has been forced out. */
  lemma WholeSaved(m: Tree, path: Path, flushed: set<Flush>)
    requires Rooted(m) && Listing(Sub(m, path))
    requires Saved(Sub(m, path + [APPROVED]), path + [APPROVED], flushed)
    requires Durable(path + [MANIFEST], Sub(m, path)[[MANIFEST]].data) in flushed
    ensures Saved(Sub(m, path), path, flushed)
  {
    hide Sub, Rooted, APPROVED, MANIFEST;
    forall k | k in Sub(m, path) && Sub(m, path)[k].File?
      ensures Durable(path + k, Sub(m, path)[k].data) in flushed
    {
      if k != [MANIFEST] {
        ApprovedOrManifest(m, path, k);
        BelowApproved(m, path, k, APPROVED);
      }
    }
  }

  // ----- Publishing -----

  /** The staging directory and the name it is to be published under. */
  ghost predicate Ready(fs: FileSystem, path: Path, final: Path)
    reads fs`m
  {
    path != [] && final == fs.watch && Unwatched(fs, path) && CanCreate(fs.m, final) && Parent(path) == Parent(final)
  }

  /** `os.ReadDir` of the staging directory: exactly the two expected entries. */
  method CheckListing(fs: FileSystem, path: Path) returns (ok: bool)
    modifies fs`faults
    ensures fs.faults >= old(fs.faults)
    ensures ok ==> Listing(Sub(fs.m, path)) && fs.faults == old(fs.faults)
    ensures !ok ==> fs.faults > old(fs.faults) || !Listing(Sub(fs.m, path))
  {
    var read := fs.Close();
    ok := read && Listing(Sub(fs.m, path));
  }

  /** Everything up to the rename: the tree is sealed where it is. */
  method PrepareTree(ctx: Context, fs: FileSystem, path: Path, fileMode: Mode, dirMode: Mode) returns (ok: bool)
    requires Unwatched(fs, path)
    modifies ctx, fs, fs.disk
    ensures old(ctx.done) ==> ctx.done
    ensures Within(fs, path) && old(fs.disk.flushed) <= fs.disk.flushed
    ensures ok ==> Linked(Sub(fs.m, path), path, fs.disk.flushed)
    ensures ok ==> Listing(Sub(old(fs.m), path)) && Sub(fs.m, path) == Sealed(Sub(old(fs.m), path), fileMode, dirMode)
    ensures ok ==> fs.faults == old(fs.faults)
    ensures !ok ==> ctx.done || fs.faults > old(fs.faults) || !Listing(Sub(old(fs.m), path))
    ensures Remains(Sub(old(fs.m), path), Sub(fs.m, path))
    ensures NoDirHas(Sub(old(fs.m), path), dirMode) ==> InsideOut(Sub(fs.m, path), dirMode)
  {
    hide Outside, Sub, Unwatched, Sealed, Listing, Linked;
    if NoDirHas(Sub(fs.m, path), dirMode) {
      NoneIsInsideOut(Sub(fs.m, path), dirMode);
    }
    hide NoDirHas, InsideOut;
    var canceled := ctx.Err();
    ok := !canceled;
    if ok {
      ok := CheckListing(fs, path);
    }
    if ok {
      ok := SealTree(ctx, fs, path, fileMode, dirMode);
    }
    if ok {
      canceled := ctx.Err();
      ok := !canceled;
    }
  }

  lemma NoneIsInsideOut(t: Tree, dirMode: Mode)
    requires NoDirHas(t, dirMode)
    ensures InsideOut(t, dirMode)
  {
  }

  /** The rename that publishes: all at once, the onlooker sees the tree that was prepared. */
  method RenameTree(fs: FileSystem, path: Path, final: Path) returns (ok: bool)
    requires Ready(fs, path, final) && Listing(Sub(fs.m, path)) && Accepts(fs, Sub(fs.m, path))
    modifies fs, fs.disk
    ensures fs.Valid() && fs.faults >= old(fs.faults) && fs.intact == old(fs.intact)
    ensures ok ==>
      Sub(fs.m, final) == Sub(old(fs.m), path) && Outside(fs.m, final) == Outside(old(fs.m), path) && Absent(fs.m, path)
    ensures ok ==> fs.faults == old(fs.faults)
    ensures ok && Saved(Sub(old(fs.m), path), path, old(fs.disk.flushed)) ==>
      Saved(Sub(fs.m, final), final, fs.disk.flushed)
    ensures ok && Linked(Sub(old(fs.m), path), path, old(fs.disk.flushed)) ==>
      Linked(Sub(fs.m, final), final, fs.disk.flushed)
    ensures !ok ==> fs.m == old(fs.m) && fs.faults > old(fs.faults)
  {
    MovedInside(fs.m, path, final);
    MovedOutside(fs.m, path, final);
    MovedAway(fs.m, path, final);
    PathPresent(fs.m, path);
    SavedMoved(Sub(fs.m, path), path, final, fs.disk.flushed);
    hide Outside, Sub, Listing, Moved, Saved, Linked, Rebased;
    assert final != path;
    ok := fs.Rename(path, final);
  }

  lemma PathPresent(m: Tree, path: Path)
    requires Listing(Sub(m, path))
    ensures path in m && m[path].Dir?
  {
    assert path + [] == path;
    assert [] in Sub(m, path);
  }

  /** Sealing leaves the contents of files as they have been forced out. */
  lemma SealedSaved(t: Tree, root: Path, fileMode: Mode, dirMode: Mode, flushed: set<Flush>, more: set<Flush>)
    requires flushed <= more
    ensures Saved(t, root, flushed) ==> Saved(Sealed(t, fileMode, dirMode), root, more)
  {
  }

  /** `PublishContext` up to the rename; and whether it was renamed. */
  method PublishTree(
    ctx: Context, fs: FileSystem, path: Path, final: Path, fileMode: Mode, dirMode: Mode
  ) returns (renamed: bool)
    requires Ready(fs, path, final)
    requires Listing(Sub(fs.m, path)) ==> Accepts(fs, Sealed(Sub(fs.m, path), fileMode, dirMode))
    modifies ctx, fs, fs.disk
    ensures old(ctx.done) ==> ctx.done
    ensures fs.Valid() && fs.faults >= old(fs.faults) && fs.intact == old(fs.intact)
    ensures renamed ==>
      && Listing(Sub(old(fs.m), path)) && Sub(fs.m, final) == Sealed(Sub(old(fs.m), path), fileMode, dirMode)
      && Outside(fs.m, final) == Outside(old(fs.m), path) && Absent(fs.m, path) && fs.faults == old(fs.faults)
    ensures renamed ==> Linked(Sub(fs.m, final), final, fs.disk.flushed)
    ensures renamed && Saved(Sub(old(fs.m), path), path, old(fs.disk.flushed)) ==>
      Saved(Sub(fs.m, final), final, fs.disk.flushed)
    ensures !renamed ==> Ready(fs, path, final) && Outside(fs.m, path) == Outside(old(fs.m), path)
    ensures !renamed ==> ctx.done || fs.faults > old(fs.faults) || !Listing(Sub(old(fs.m), path))
    ensures !renamed ==> Remains(Sub(old(fs.m), path), Sub(fs.m, path))
    ensures !renamed && NoDirHas(Sub(old(fs.m), path), dirMode) ==> InsideOut(Sub(fs.m, path), dirMode)
  {
    hide Outside, Sub, Listing, AllModes, Sealed, NoDirHas, InsideOut, Accepts, Remains, Saved, Linked;
    renamed := PrepareTree(ctx, fs, path, fileMode, dirMode);
    StillFree(old(fs.m), fs.m, path, final);
    if renamed {
      SealedSaved(Sub(old(fs.m), path), path, fileMode, dirMode, old(fs.disk.flushed), fs.disk.flushed);
      SealedComplete(Sub(old(fs.m), path), fileMode, dirMode);
      renamed := RenameTree(fs, path, final);
    }
  }

  // ----- Giving up -----

  /** One step of the walk of `Abort`: a directory is made writable again, if that is possible. */
  method OpenOne(fs: FileSystem, root: Path, k: Path)
    requires fs.Valid() && k in Sub(fs.m, root) && Sub(fs.m, root)[k].Dir?
    modifies fs
    ensures fs.Valid() && fs.faults >= old(fs.faults) && Outside(fs.m, root) == Outside(old(fs.m), root)
    ensures fs.faults == old(fs.faults) ==>
      Sub(fs.m, root) == Sub(old(fs.m), root)[k := Dir(PRIVATE_DIR)]
    ensures Sub(fs.m, root).Keys == Sub(old(fs.m), root).Keys && Remains(Sub(old(fs.m), root), Sub(fs.m, root))
    ensures fs.intact ==> old(fs.intact) && (fs.faults == old(fs.faults) ==> fs.calm(fs.m))
    ensures old(Unwatched(fs, root)) ==> Within(fs, root)
  {
    var v := Dir(PRIVATE_DIR);
    UpdateInside(fs.m, root + k, v, root);
    assert (root + k)[|root|..] == k;
    if Unwatched(fs, root) {
      StoreThere(fs.m, root, k, v, fs.watch);
    }
    var changed := fs.Chmod(root + k, PRIVATE_DIR);
  }

  /** The whole walk. */
  method OpenUp(fs: FileSystem, root: Path)
    requires fs.Valid()
    modifies fs
    ensures fs.Valid() && fs.faults >= old(fs.faults) && Outside(fs.m, root) == Outside(old(fs.m), root)
    ensures fs.faults == old(fs.faults) ==>
      Sub(fs.m, root) == Chmodded(Sub(old(fs.m), root), DirsOf(Sub(old(fs.m), root)), PRIVATE_DIR)
    ensures fs.intact ==> old(fs.intact)
    ensures Remains(Sub(old(fs.m), root), Sub(fs.m, root))
    ensures fs.intact && fs.faults == old(fs.faults) && DirsOf(Sub(fs.m, root)) != {} ==> fs.calm(fs.m)
    ensures old(Unwatched(fs, root)) ==> Within(fs, root)
  {
    hide Outside, Sub, Unwatched, Chmodded, DirsOf, Rooted, Absent, Remains;
    ghost var t := Sub(fs.m, root);
    var dirs := DirsOf(Sub(fs.m, root));
    var todo := dirs;
    assert dirs - todo == {};
    SameDirsOf(t, PRIVATE_DIR);
    while todo != {}
      invariant fs.Valid() && fs.faults >= old(fs.faults) && Outside(fs.m, root) == Outside(old(fs.m), root)
      invariant todo <= dirs && Sub(fs.m, root).Keys == t.Keys && Remains(t, Sub(fs.m, root))
      invariant fs.faults == old(fs.faults) ==> Sub(fs.m, root) == Chmodded(t, dirs - todo, PRIVATE_DIR)
      invariant fs.intact ==> old(fs.intact) && (fs.faults == old(fs.faults) && todo != dirs ==> fs.calm(fs.m))
      invariant old(Unwatched(fs, root)) ==> Within(fs, root)
      decreases todo
    {
      var k :| k in todo;
      ChmodOne(t, dirs - todo, k, PRIVATE_DIR);
      assert (dirs - todo) + {k} == dirs - (todo - {k});
      ghost var u := Sub(fs.m, root);
      StillDirectory(t, u, k);
      OpenOne(fs, root, k);
      RemainsTransitive(t, u, Sub(fs.m, root));
      todo := todo - {k};
    }
    assert dirs - {} == dirs;
  }

  lemma StillDirectory(t: Tree, u: Tree, k: Path)
    requires k in DirsOf(t) && Remains(t, u) && u.Keys == t.Keys
    ensures k in u && u[k].Dir?
  {
  }

  lemma SameDirsOf(t: Tree, mode: Mode)
    ensures DirsOf(Chmodded(t, DirsOf(t), mode)) == DirsOf(t)
    ensures DirsOf(t) <= t.Keys && Chmodded(t, {}, mode) == t && Remains(t, t)
  {
  }

  /** Opened up below a writable directory, a tree can be removed. */
  lemma OpenedRemovable(before: Tree, m: Tree, path: Path)
    requires path != [] && Outside(m, path) == Outside(before, path)
    requires Sub(m, path) == Chmodded(Sub(before, path), DirsOf(Sub(before, path)), PRIVATE_DIR)
    requires Parent(path) in before && OwnerWritable(before[Parent(path)].mode)
    ensures Removable(m, path)
  {
    WritablePrivateDir();
    OutsideAgrees(m, before, path, Parent(path));
    forall d | d in m && m[d].Dir? && path <= d
      ensures OwnerWritable(m[d].mode)
    {
      SubOutside(m, path, d);
    }
  }

  /** A published tree that is being taken back is no longer sealed. */
  lemma OpenedUnsealed(before: Tree, m: Tree, path: Path)
    requires path in before && before[path].Dir?
    requires Sub(m, path) == Chmodded(Sub(before, path), DirsOf(Sub(before, path)), PRIVATE_DIR)
    ensures DirsOf(Sub(m, path)) != {} && path in m && m[path] == Dir(PRIVATE_DIR)
  {
    assert path + [] == path;
    assert [] in Sub(before, path) && [] in DirsOf(Sub(before, path));
    assert [] in Sub(m, path) && Sub(m, path)[[]] == Dir(PRIVATE_DIR);
    assert [] in DirsOf(Sub(m, path));
  }

  /** `Abort`, for a path that is still to be removed. */
  method Discard(fs: FileSystem, path: Path, ghost dirMode: Mode)
    requires fs.Valid() && path != [] && Parent(path) in fs.m && OwnerWritable(fs.m[Parent(path)].mode)
    modifies fs
    ensures fs.Valid() && fs.faults >= old(fs.faults) && Outside(fs.m, path) == Outside(old(fs.m), path)
    ensures fs.faults == old(fs.faults) ==> fs.m == Outside(old(fs.m), path)
    ensures Remains(Sub(old(fs.m), path), Sub(fs.m, path))
    ensures old(Unwatched(fs, path)) ==> Within(fs, path)
    ensures fs.watch == path && path in old(fs.m) && old(fs.m)[path].Dir? && fs.faults == old(fs.faults) ==>
      (Exacting(fs, dirMode) && dirMode != PRIVATE_DIR ==> !fs.intact)
  {
    OpenUp(fs, path);
    if fs.faults == old(fs.faults) {
      OpenedRemovable(old(fs.m), fs.m, path);
      if fs.watch == path && path in old(fs.m) && old(fs.m)[path].Dir? {
        OpenedUnsealed(old(fs.m), fs.m, path);
      }
    }
    hide Outside, Sub, Chmodded, DirsOf, Removable, Remains, Submap;
    OutsideTwice(old(fs.m), path, path);
    ghost var middle := fs.m;
    var removed := fs.RemoveAll(path);
    SubmapRemains(middle, fs.m, path);
    RemainsTransitive(Sub(old(fs.m), path), Sub(middle, path), Sub(fs.m, path));
  }
}
