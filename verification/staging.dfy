/** The staging directory of internal/output/staging.go, from creation to publication or abort. */
module StagingArea {
  import opened Basics
  import opened Text
  import opened PosixPath
  import opened Decimals
  import opened Streams
  import opened FileSystems
  import opened Confined
  import opened Publishing
  import opened Sealing
  import opened ZipNames

  const MANIFEST_TMP := "manifest.json.tmp"

  /** The permission bits that publishing may set. */
  function FileBits(mode: Mode): Mode {
    mode & 0x1B6   // 0o666
  }

  function DirBits(mode: Mode): Mode {
    mode & 0x1FF   // 0o777
  }

  /** A file gets exactly the permissions that are configured, if none of them is to execute it, */
  lemma FileBitsKept(mode: Mode)
    ensures !Rwx(mode)[2] && !Rwx(mode)[5] && !Rwx(mode)[8] ==> Rwx(FileBits(mode)) == Rwx(mode)
    ensures NoSpecialBits(FileBits(mode))
  {
  }

  /** and a directory exactly those that are configured. */
  lemma DirBitsKept(mode: Mode)
    ensures Rwx(DirBits(mode)) == Rwx(mode) && NoSpecialBits(DirBits(mode))
  {
  }

  /** Every entry has the permissions that were asked for, and nothing else. */
  ghost predicate Permitted(t: Tree, fileMode: Mode, dirMode: Mode) {
    forall k :: k in t ==>
      NoSpecialBits(t[k].mode) && Rwx(t[k].mode) == Rwx(if t[k].Dir? then dirMode else fileMode)
  }

  /** Without execution: nobody may execute a file of this mode. */
  predicate NoExecution(fileMode: Mode) {
    !Rwx(fileMode)[2] && !Rwx(fileMode)[5] && !Rwx(fileMode)[8]
  }

  lemma AllPermitted(t: Tree, fileMode: Mode, dirMode: Mode)
    requires NoExecution(fileMode) && AllModes(t, FileBits(fileMode), DirBits(dirMode))
    ensures Permitted(t, fileMode, dirMode)
  {
    FileBitsKept(fileMode);
    DirBitsKept(dirMode);
    hide FileBits, DirBits, Rwx, NoSpecialBits;
  }

  lemma SealedPermitted(t: Tree, fileMode: Mode, dirMode: Mode)
    ensures NoExecution(fileMode) ==> Permitted(Sealed(t, FileBits(fileMode), DirBits(dirMode)), fileMode, dirMode)
  {
    hide FileBits, DirBits, Rwx, NoSpecialBits, NoExecution, Permitted;
    var u := Sealed(t, FileBits(fileMode), DirBits(dirMode));
    assert AllModes(u, FileBits(fileMode), DirBits(dirMode));
    if NoExecution(fileMode) {
      AllPermitted(u, fileMode, dirMode);
    }
  }

  // ----- Output paths -----

  /** `approvedPath`, relative to the approved directory. */
  function ApprovedPath(rel: string): Option<Path> {
    if rel == "" || rel[0] == '/' || '\\' in rel || Clean(rel) != rel || rel == "." || rel == ".." ||
      "../" <= rel then None
    else Some(Split(rel))
  }

  lemma LeadingDots(rel: string)
    ensures Split(rel)[0] == ".." <==> rel == ".." || "../" <= rel
  {
    JoinSplit(rel);
    var parts := Split(rel);
    if parts[0] == ".." && |parts| > 1 {
      assert rel == ".." + "/" + Join(parts[1..]);
    }
    if rel == ".." {
      SplitNoSlash(rel);
    } else if "../" <= rel {
      assert rel == ".." + "/" + rel[3..];
      SplitCons("..", rel[3..]);
    }
  }

  /** It accepts exactly the names all of whose components stay below the directory. */
  lemma ApprovedPathExact(rel: string)
    ensures ApprovedPath(rel).Some? <==> '\\' !in rel && forall i :: 0 <= i < |Split(rel)| ==> Normal(Split(rel)[i])
  {
    var parts := Split(rel);
    LeadingDots(rel);
    JoinSplit(rel);
    if rel != "" && rel[0] == '/' {
      assert parts[0] == "";
    } else if rel != "" {
      CleanFixpoint(rel);
      if rel == "." {
        SplitNoSlash(rel);
      }
      if forall i :: 0 <= i < |parts| ==> Normal(parts[i]) {
        assert Climbs(parts);
        assert Normal(parts[0]);
      }
      if ApprovedPath(rel).Some? {
        assert Climbs(parts) && parts[0] != "..";
      }
    }
  }

  /** A path of safe components is never refused, and names itself. */
  lemma SafePathsApproved(p: Path)
    requires p != [] && AllSafe(p)
    ensures ApprovedPath(Join(p)) == Some(p)
  {
    SafeNoSlash(p);
    SplitJoin(p);
    NoBackslash(p);
    ApprovedPathExact(Join(p));
  }

  lemma {:induction false} NoBackslash(p: Path)
    requires AllSafe(p)
    ensures '\\' !in Join(p)
  {
    if p != [] {
      assert SafeComponent(p[0]);
      assert '\\' !in p[0];
      if |p| > 1 {
        NoBackslash(p[1..]);
      }
    }
  }

  // ----- Copying one file in -----

  /** What a copy leaves below the approved directory. */
  ghost function AddedFile(t: Tree, k: Path, data: Bytes): Tree
    requires k != []
  {
    WithDirs(t, Parent(k))[k := File(PRIVATE_FILE, data)]
  }

  /** A file that has been forced out may join others that have been. */
  lemma SavedAdded(t: Tree, area: Path, k: Path, data: Bytes, flushed: set<Flush>, more: set<Flush>)
    requires k != [] && Saved(t, area, flushed) && flushed <= more && Durable(area + k, data) in more
    ensures Saved(AddedFile(t, k, data), area, more)
  {
  }

  lemma SavedDirs(t: Tree, area: Path, k: Path, flushed: set<Flush>)
    requires Saved(t, area, flushed)
    ensures Saved(WithDirs(t, k), area, flushed)
  {
  }

  /** What a failed copy may leave: directories, and part of the file. */
  ghost predicate PartialCopy(t: Tree, u: Tree, k: Path, data: Bytes)
    requires k != []
  {
    && (forall q :: q in t ==> q in u && u[q] == t[q])
    && (forall q :: q in u ==>
          || q in t
          || (q in Prefixes(Parent(k)) && u[q] == Dir(PRIVATE_DIR))
          || (q == k && u[q].File? && u[q].data <= data))
  }

  /** A slot for a new file: free, legal, with only directories on the way. */
  ghost predicate FreeSlot(t: Tree, k: Path) {
    k != [] && k !in t && Creatable(k) && WayClear(t, Parent(k)) && OpenDirs(t)
  }

  lemma SlotAfterDirs(t: Tree, k: Path)
    requires FreeSlot(t, k)
    ensures CanCreateIn(WithDirs(t, Parent(k)), k) && OpenDirs(WithDirs(t, Parent(k)))
    ensures Creatable(Parent(k))
  {
    WritablePrivateDir();
    var u := WithDirs(t, Parent(k));
    assert forall q :: q in Prefixes(Parent(k)) ==> |q| < |k|;
    if Parent(k) != [] {
      assert Parent(k)[..|Parent(k)|] == Parent(k);
      assert Parent(k) in Prefixes(Parent(k));
    }
    assert Creatable(k);
  }

  /** The data a copy would read. */
  function DataAt(m: Tree, p: Path): Bytes {
    if p in m && m[p].File? then m[p].data else []
  }

  /** `io.Copy` through a context-aware reader: all of it, or a prefix and a reason. */
  method CopyStream(ctx: Context, fs: FileSystem, data: Bytes) returns (copied: Bytes, ok: bool)
    modifies ctx, fs`faults
    ensures old(ctx.done) ==> ctx.done
    ensures fs.faults >= old(fs.faults) && copied <= data
    ensures ok ==> copied == data && fs.faults == old(fs.faults)
    ensures !ok ==> ctx.done || fs.faults > old(fs.faults)
  {
    var canceled := ctx.Err();
    var faulted: bool := *;
    var n := |data|;
    ok := true;
    if canceled || faulted {
      n :| 0 <= n <= |data|;
      ok := false;
      if !canceled {
        fs.Fault();
      }
    }
    copied := data[..n];
  }

  /** What a failed attempt to fill a slot leaves there: nothing, or part of the data. */
  ghost predicate FillLeft(t: Tree, u: Tree, k: Path, data: Bytes) {
    u == t || (k in u && u[k].File? && u[k].data <= data && u == t[k := u[k]])
  }

  /** Writing, syncing and closing a file that has just been created. */
  method WriteOut(ctx: Context, fs: FileSystem, area: Path, k: Path, data: Bytes) returns (ok: bool, copied: Bytes)
    requires Unwatched(fs, area) && k in Sub(fs.m, area) && Sub(fs.m, area)[k] == File(PRIVATE_FILE, [])
    modifies ctx, fs, fs.disk
    ensures old(ctx.done) ==> ctx.done
    ensures Within(fs, area) && copied <= data && old(fs.disk.flushed) <= fs.disk.flushed
    ensures ok ==> Durable(area + k, data) in fs.disk.flushed
    ensures Sub(fs.m, area) == Sub(old(fs.m), area)[k := File(PRIVATE_FILE, copied)]
    ensures ok ==> copied == data && fs.faults == old(fs.faults)
    ensures !ok ==> ctx.done || fs.faults > old(fs.faults)
  {
    hide Outside, Sub, Unwatched;
    var complete;
    copied, complete := CopyStream(ctx, fs, data);
    SetDataIn(fs, area, k, copied);
    var synced := SyncIn(fs, area, k);
    var closed := fs.Close();
    ok := complete && synced && closed;
  }

  /** Creating, filling, syncing and closing the destination; removed again on failure. */
  method FillSlot(ctx: Context, fs: FileSystem, area: Path, k: Path, data: Bytes) returns (ok: bool)
    requires Unwatched(fs, area)
    modifies ctx, fs, fs.disk
    ensures old(ctx.done) ==> ctx.done
    ensures Within(fs, area) && old(fs.disk.flushed) <= fs.disk.flushed
    ensures ok ==> Durable(area + k, data) in fs.disk.flushed
    ensures ok ==> Sub(fs.m, area) == Sub(old(fs.m), area)[k := File(PRIVATE_FILE, data)] && fs.faults == old(fs.faults)
    ensures !ok ==> ctx.done || fs.faults > old(fs.faults) || !CanCreateIn(Sub(old(fs.m), area), k)
    ensures !ok ==> FillLeft(Sub(old(fs.m), area), Sub(fs.m, area), k, data)
  {
    ghost var t := Sub(fs.m, area);
    if area + k !in fs.m {
      NothingBelow(fs.m, area, k);
    }
    hide Outside, Sub, CanCreateIn, Unwatched;
    ok := CreateIn(fs, area, k, PRIVATE_FILE);
    if ok {
      var copied;
      ok, copied := WriteOut(ctx, fs, area, k, data);
      StoredOver(t, k, File(PRIVATE_FILE, []), File(PRIVATE_FILE, copied));
      if !ok {
        RemovedAgain(t, k, File(PRIVATE_FILE, copied));
        var removed := TryRemoveIn(fs, area, k);
      }
    }
  }

  /** Everything `CopyContext` does once the output path is known. */
  method CopyInto(ctx: Context, fs: FileSystem, area: Path, k: Path, src: Path) returns (r: Option<Bytes>)
    requires Unwatched(fs, area) && area in fs.m && !(area <= src) && FreeSlot(Sub(fs.m, area), k)
    modifies ctx, fs, fs.disk
    ensures old(ctx.done) ==> ctx.done
    ensures Within(fs, area) && old(fs.disk.flushed) <= fs.disk.flushed
    ensures r.Some? ==> Durable(area + k, r.value) in fs.disk.flushed
    ensures r.Some? ==> src in old(fs.m) && old(fs.m)[src].File? && r.value == old(fs.m)[src].data
    ensures r.Some? ==> Sub(fs.m, area) == AddedFile(Sub(old(fs.m), area), k, r.value) && fs.faults == old(fs.faults)
    ensures r.None? ==> ctx.done || fs.faults > old(fs.faults) || src !in old(fs.m) || !old(fs.m)[src].File?
    ensures PartialCopy(Sub(old(fs.m), area), Sub(fs.m, area), k, DataAt(old(fs.m), src))
    ensures [] in Sub(fs.m, area) && Sub(fs.m, area)[[]].Dir? && OpenDirs(Sub(fs.m, area))
  {
    ghost var t := Sub(fs.m, area);
    SlotAfterDirs(t, k);
    hide Outside, Sub, CanCreateIn, Unwatched, Creatable, WayClear, PartialCopy, OpenDirs, WithDirs, SomeDirsAdded,
      FreeSlot, FillLeft;
    r := None;
    var made := MkdirAllIn(fs, area, Parent(k));
    ghost var u := Sub(fs.m, area);
    if made {
      OutsideAgrees(fs.m, old(fs.m), area, src);
      r := ReadAndFill(ctx, fs, area, k, src);
    }
    CopyLeft(t, u, Sub(fs.m, area), k, DataAt(old(fs.m), src));
  }

  /** Opening the source and filling the slot from it. */
  method ReadAndFill(ctx: Context, fs: FileSystem, area: Path, k: Path, src: Path) returns (r: Option<Bytes>)
    requires Unwatched(fs, area) && CanCreateIn(Sub(fs.m, area), k)
    modifies ctx, fs, fs.disk
    ensures old(ctx.done) ==> ctx.done
    ensures Within(fs, area) && old(fs.disk.flushed) <= fs.disk.flushed
    ensures r.Some? ==> Durable(area + k, r.value) in fs.disk.flushed
    ensures r.Some? ==> src in old(fs.m) && old(fs.m)[src].File? && r.value == old(fs.m)[src].data
    ensures r.Some? ==>
      Sub(fs.m, area) == Sub(old(fs.m), area)[k := File(PRIVATE_FILE, r.value)] && fs.faults == old(fs.faults)
    ensures r.None? ==> ctx.done || fs.faults > old(fs.faults) || src !in old(fs.m) || !old(fs.m)[src].File?
    ensures r.None? ==> FillLeft(Sub(old(fs.m), area), Sub(fs.m, area), k, DataAt(old(fs.m), src))
  {
    r := fs.ReadFile(src);
    hide Outside, Sub, CanCreateIn, Unwatched;
    if r.Some? {
      var filled := FillSlot(ctx, fs, area, k, r.value);
      r := if filled then r else None;
    }
  }

  lemma NothingBelow(m: Tree, area: Path, k: Path)
    requires Rooted(m) && area + k !in m
    ensures Outside(Sub(m, area), k) == Sub(m, area)
  {
    AbsentBelow(m, area + k);
    RemoveThere(m, area, k);
  }

  lemma RemovedAgain(t: Tree, k: Path, v: Node)
    ensures Outside(t[k := v], k) == Outside(t, k)
  {
  }

  // ----- The staging directory -----

  class Staging {
    const fs: FileSystem
    const lib: Library
    const final: Path
    var path: Path
    var done: bool

    constructor (fs: FileSystem, lib: Library, final: Path, path: Path)
      ensures this.fs == fs && this.lib == lib && this.final == final && this.path == path && !done
    {
      this.fs, this.lib, this.final, this.path, done := fs, lib, final, path, false;
    }

    /** The directory of approved files. */
    function Area(): Path
      reads this
    {
      path + [APPROVED]
    }

    /** Nothing published yet, but it could be; and the approved directory in place and open. */
    ghost predicate Open()
      reads this, fs`m
    {
      && Pending()
      && [] in Sub(fs.m, Area()) && Sub(fs.m, Area())[[]].Dir? && OpenDirs(Sub(fs.m, Area()))
    }

    ghost predicate Pending()
      reads this, fs`m
    {
      && !done && path != [] && final == fs.watch && Unwatched(fs, path)
      && CanCreate(fs.m, final) && Parent(path) == Parent(final)
    }

    /** `Staging.Mkdir`, for a path that may already be partly there. */
    method Mkdir(rel: string) returns (ok: bool)
      requires Open()
      requires ApprovedPath(rel).Some? ==>
        WayClear(Sub(fs.m, Area()), ApprovedPath(rel).value) && Creatable(ApprovedPath(rel).value)
      modifies fs
      ensures Open() && Within(fs, Area())
      ensures ok ==>
        ApprovedPath(rel).Some? && Sub(fs.m, Area()) == WithDirs(Sub(old(fs.m), Area()), ApprovedPath(rel).value)
      ensures ok ==> fs.faults == old(fs.faults)
      ensures !ok ==> fs.faults > old(fs.faults) || ApprovedPath(rel).None?
      ensures !ok && ApprovedPath(rel).None? ==> fs.m == old(fs.m)
      ensures ApprovedPath(rel).Some? ==>
        SomeDirsAdded(Sub(old(fs.m), Area()), Sub(fs.m, Area()), ApprovedPath(rel).value)
    {
      ApartBelow(fs.watch, path, Area());
      var p := ApprovedPath(rel);
      ok := false;
      if p.Some? {
        WritablePrivateDir();
        assert Area() + [] == Area();
        ok := MkdirAllIn(fs, Area(), p.value);
        OutsideNested(old(fs.m), fs.m, Area(), path);
        StillFree(old(fs.m), fs.m, path, final);
      }
    }

    /**
     `CopyContext`: on success the slot holds exactly the bytes of the source, whose
     digest and length are returned; otherwise at most a prefix of them.
     */
    method CopyContext(ctx: Context, src: Path, rel: string) returns (r: Option<(Digest, nat)>)
      requires Open() && !(Area() <= src)
      requires ApprovedPath(rel).Some? ==> FreeSlot(Sub(fs.m, Area()), ApprovedPath(rel).value)
      modifies ctx, fs, fs.disk
      ensures old(ctx.done) ==> ctx.done
      ensures Open() && Within(fs, Area()) && old(fs.disk.flushed) <= fs.disk.flushed
      ensures r.Some? ==>
        && ApprovedPath(rel).Some? && src in old(fs.m) && old(fs.m)[src].File?
        && r.value == (lib.sha(old(fs.m)[src].data), |old(fs.m)[src].data|)
        && Sub(fs.m, Area()) == AddedFile(Sub(old(fs.m), Area()), ApprovedPath(rel).value, old(fs.m)[src].data)
        && Durable(Area() + ApprovedPath(rel).value, old(fs.m)[src].data) in fs.disk.flushed
        && fs.faults == old(fs.faults)
      ensures r.None? ==>
        ctx.done || fs.faults > old(fs.faults) || ApprovedPath(rel).None? || src !in old(fs.m) || !old(fs.m)[src].File?
      ensures r.None? && ApprovedPath(rel).None? ==> fs.m == old(fs.m)
      ensures ApprovedPath(rel).Some? ==>
        PartialCopy(Sub(old(fs.m), Area()), Sub(fs.m, Area()), ApprovedPath(rel).value, DataAt(old(fs.m), src))
    {
      r := None;
      var p := ApprovedPath(rel);
      if p.Some? {
        ApartBelow(fs.watch, path, Area());
        assert Area() + [] == Area();
        hide Outside, Sub, AddedFile, PartialCopy, FreeSlot, OpenDirs;
        var data := CopyInto(ctx, fs, Area(), p.value, src);
        OutsideNested(old(fs.m), fs.m, Area(), path);
        StillFree(old(fs.m), fs.m, path, final);
        if data.Some? {
          r := Some((lib.sha(data.value), |data.value|));
        }
      }
    }

    /** `WriteManifest`: the manifest appears whole, under its final name, or not at all. */
    method WriteManifest(data: Bytes) returns (ok: bool)
      requires Open()
      modifies fs, fs.disk
      ensures Open() && Within(fs, path) && Sub(fs.m, Area()) == Sub(old(fs.m), Area())
      ensures old(fs.disk.flushed) <= fs.disk.flushed
      ensures ok ==> Durable(path + [MANIFEST], data) in fs.disk.flushed
      ensures ok ==>
        && Sub(fs.m, path) == Sub(old(fs.m), path)[[MANIFEST] := File(PRIVATE_FILE, data)]
        && [MANIFEST_TMP] !in Sub(fs.m, path)
      ensures ok ==> fs.faults == old(fs.faults)
      ensures !ok ==>
        || fs.faults > old(fs.faults) || [MANIFEST_TMP] in Sub(old(fs.m), path) || [MANIFEST] in Sub(old(fs.m), path)
        || !CanHold(Sub(old(fs.m), path), [])
    {
      ghost var t := Sub(fs.m, path);
      ManifestNames();
      ok := WriteVia(fs, path, [MANIFEST_TMP], [MANIFEST], data);
      ManifestApart(old(fs.m), fs.m, path);
      StillFree(old(fs.m), fs.m, path, final);
    }

    /**
     `PublishContext`. An onlooker who accepts nothing at the final name but the sealed
     tree is content at every moment, whatever happens: contents and modes are settled
     before the rename. Once renamed, that tree stands under its final name even if
     this reports an error; before that, nothing does.
     */
    method PublishContext(ctx: Context, fileMode: Mode, dirMode: Mode) returns (ok: bool)
      requires Pending()
      requires Listing(Sub(fs.m, path)) ==> Accepts(fs, Sealed(Sub(fs.m, path), FileBits(fileMode), DirBits(dirMode)))
      modifies this, ctx, fs, fs.disk
      ensures old(ctx.done) ==> ctx.done
      ensures fs.Valid() && fs.faults >= old(fs.faults) && fs.intact == old(fs.intact)
      ensures path == old(path) || path == final
      ensures ok ==> done && path == final && fs.faults == old(fs.faults)
      ensures path == final ==>
        && Listing(Sub(old(fs.m), old(path))) && Absent(fs.m, old(path))
        && Outside(fs.m, final) == Outside(old(fs.m), old(path))
        && Sub(fs.m, final) == Sealed(Sub(old(fs.m), old(path)), FileBits(fileMode), DirBits(dirMode))
      ensures path == final && NoExecution(fileMode) ==> Permitted(Sub(fs.m, final), fileMode, dirMode)
      ensures ok ==> Linked(Sub(fs.m, final), final, fs.disk.flushed) && Reachable(final) in fs.disk.flushed
      ensures ok && Saved(Sub(old(fs.m), old(path)), old(path), old(fs.disk.flushed)) ==>
        Saved(Sub(fs.m, final), final, fs.disk.flushed)
      ensures path != final ==> Pending() && Outside(fs.m, path) == Outside(old(fs.m), path)
      ensures path != final ==> Remains(Sub(old(fs.m), path), Sub(fs.m, path))
      ensures !ok ==> !done && (path == final ==> fs.faults > old(fs.faults))
      ensures !ok ==> ctx.done || fs.faults > old(fs.faults) || !Listing(Sub(old(fs.m), old(path)))
      ensures path != final && NoDirHas(Sub(old(fs.m), path), DirBits(dirMode)) ==>
        InsideOut(Sub(fs.m, path), DirBits(dirMode))
    {
      SealedPermitted(Sub(fs.m, path), fileMode, dirMode);
      hide Outside, Sub, Listing, Sealed, NoDirHas, InsideOut, Accepts, Remains, Permitted, NoExecution, Saved, Linked;
      ghost var unsealed := path;
      ok := PublishTree(ctx, fs, path, final, FileBits(fileMode), DirBits(dirMode));
      if ok {
        path := final;
        FinalThere(fs.m, final, Sub(old(fs.m), unsealed), FileBits(fileMode), DirBits(dirMode));
        ok := SyncAbove(fs, final);
        done := ok;
      }
    }

    /** `Abort`: removes what was staged, or what was renamed but not known to be durable. */
    method Abort(ghost dirMode: Mode)
      requires done || (fs.Valid() && path != [] && Parent(path) in fs.m && OwnerWritable(fs.m[Parent(path)].mode))
      modifies fs
      ensures done ==> fs.m == old(fs.m) && fs.intact == old(fs.intact) && fs.faults == old(fs.faults)
      ensures !done ==> fs.Valid() && fs.faults >= old(fs.faults) && Outside(fs.m, path) == Outside(old(fs.m), path)
      ensures !done && fs.faults == old(fs.faults) ==> fs.m == Outside(old(fs.m), path)
      ensures !done ==> Remains(Sub(old(fs.m), path), Sub(fs.m, path))
      ensures !done && old(Unwatched(fs, path)) ==> Within(fs, path)
      ensures !done && fs.watch == path && path in old(fs.m) && old(fs.m)[path].Dir? && fs.faults == old(fs.faults) ==>
        (Exacting(fs, dirMode) && dirMode != PRIVATE_DIR ==> !fs.intact)
    {
      if !done {
        Discard(fs, path, dirMode);
      }
    }
  }

  lemma FinalThere(m: Tree, final: Path, t: Tree, fileMode: Mode, dirMode: Mode)
    requires Listing(t) && Sub(m, final) == Sealed(t, fileMode, dirMode)
    ensures final in m
  {
    SealedComplete(t, fileMode, dirMode);
    PathPresent(m, final);
  }

  /** Syncing and closing the directory above what has been published: that forces out its name. */
  method SyncAbove(fs: FileSystem, final: Path) returns (ok: bool)
    requires fs.Valid() && final != [] && final in fs.m
    modifies fs`faults, fs.disk
    ensures fs.faults >= old(fs.faults) && (ok <==> fs.faults == old(fs.faults))
    ensures ok ==> Reachable(final) in fs.disk.flushed
    ensures old(Saved(Sub(fs.m, final), final, fs.disk.flushed)) ==> Saved(Sub(fs.m, final), final, fs.disk.flushed)
    ensures old(Linked(Sub(fs.m, final), final, fs.disk.flushed)) ==> Linked(Sub(fs.m, final), final, fs.disk.flushed)
  {
    ghost var flushed := fs.disk.flushed;
    assert Reachable(final) in FlushOf(fs.m, Parent(final));
    hide Sub, Saved, Linked, FlushOf;
    var synced := fs.Sync(Parent(final));
    var closed := fs.Close();
    ok := synced && closed;
    SavedLater(Sub(fs.m, final), final, flushed, fs.disk.flushed);
  }

  // ----- Creating the staging directory -----

  /** A name `os.MkdirTemp` may try. */
  function TempPath(final: Path, random: string): Path
    requires final != []
  {
    Parent(final) + ["." + Last(final) + ".tmp-" + random]
  }

  predicate Digits(s: string) {
    1 <= |s| <= 10 && AllDigits(s)
  }

  /** Some name it may try is taken. */
  ghost predicate Crowded(m: Tree, final: Path)
    requires final != []
  {
    exists random :: Digits(random) && TempPath(final, random) in m
  }

  const MAX_TRIES := 10000

  /** Sixteen bytes are left for what is put around the name. */
  lemma TempPathFits(m: Tree, final: Path, random: string)
    requires final != [] && Digits(random)
    ensures Parent(TempPath(final, random)) == Parent(final) && Apart(final, TempPath(final, random))
    ensures CanCreate(m, final) && ByteLen(Last(final)) + 16 <= MAX_COMPONENT && TempPath(final, random) !in m ==>
      CanCreate(m, TempPath(final, random))
    ensures CanCreate(m, TempPath(final, random)) && final !in m && Normal(Last(final)) ==> CanCreate(m, final)
  {
    var base, p := Last(final), TempPath(final, random);
    var name := "." + base + ".tmp-" + random;
    assert name == ("." + base) + (".tmp-" + random);
    ByteLenConcat("." + base, ".tmp-" + random);
    ByteLenConcat(".", base);
    ByteLenConcat(".tmp-", random);
    assert ByteLen(".") == 1 && ByteLen(".tmp-") == 5 && ByteLen(random) <= 10 by {
      DigitsAscii(random);
      assert ".tmp-"[1..] == "tmp-" && "tmp-"[1..] == "mp-" && "mp-"[1..] == "p-" && "p-"[1..] == "-";
    }
    assert |name| > |base|;
    assert final[|final| - 1] == base && p[|final| - 1] == name;
  }

  /** A number of the environment's choice. */
  method PickDigits() returns (s: string)
    ensures Digits(s)
  {
    var n: nat :| 1 <= n <= 10;
    s := "";
    while |s| < n
      invariant |s| <= n && AllDigits(s)
    {
      var d: nat :| d < 10;
      s := s + [CharOf(d)];
    }
  }

  /** `os.MkdirTemp` beside the final name. */
  method MakeTemp(fs: FileSystem, final: Path) returns (r: Option<Path>)
    requires fs.Valid() && final == fs.watch && final != [] && Absent(fs.m, final) && Normal(Last(final))
    modifies fs
    ensures fs.Valid() && fs.faults >= old(fs.faults) && fs.intact == old(fs.intact)
    ensures r.Some? ==>
      && r.value != [] && Parent(r.value) == Parent(final) && Apart(final, r.value) && r.value !in old(fs.m)
      && CanCreate(old(fs.m), final)
      && fs.m == old(fs.m)[r.value := Dir(PRIVATE_DIR)] && fs.faults == old(fs.faults)
    ensures r.None? ==> fs.m == old(fs.m)
    ensures r.None? ==>
      || fs.faults > old(fs.faults) || !CanCreate(fs.m, final) || ByteLen(Last(final)) + 16 > MAX_COMPONENT
      || Crowded(fs.m, final)
  {
    var made, collided, try, p := false, true, 0, [];
    while !made && collided && try < MAX_TRIES
      invariant fs.Valid() && fs.faults >= old(fs.faults) && fs.intact == old(fs.intact)
      invariant made ==>
        && p != [] && Parent(p) == Parent(final) && Apart(final, p) && p !in old(fs.m) && CanCreate(old(fs.m), final)
        && fs.m == old(fs.m)[p := Dir(PRIVATE_DIR)] && fs.faults == old(fs.faults)
      invariant !made ==> fs.m == old(fs.m)
      invariant (try == 0 ==> collided) && (collided ==> fs.faults == old(fs.faults))
      invariant !made && try > 0 ==>
        || fs.faults > old(fs.faults) || !CanCreate(fs.m, final) || ByteLen(Last(final)) + 16 > MAX_COMPONENT
        || Crowded(fs.m, final)
      decreases !made, MAX_TRIES - try
    {
      made, collided, p := TryTemp(fs, final);
      try := try + 1;
    }
    r := if made then Some(p) else None;
  }

  method TryTemp(fs: FileSystem, final: Path) returns (made: bool, collided: bool, p: Path)
    requires fs.Valid() && final == fs.watch && final != [] && Absent(fs.m, final) && Normal(Last(final))
    modifies fs
    ensures fs.Valid() && fs.faults >= old(fs.faults) && fs.intact == old(fs.intact)
    ensures made ==>
      && p != [] && Parent(p) == Parent(final) && Apart(final, p) && p !in old(fs.m) && CanCreate(old(fs.m), final)
      && fs.m == old(fs.m)[p := Dir(PRIVATE_DIR)] && fs.faults == old(fs.faults)
    ensures !made ==> fs.m == old(fs.m)
    ensures collided ==> fs.faults == old(fs.faults)
    ensures !made ==>
      || fs.faults > old(fs.faults) || !CanCreate(fs.m, final) || ByteLen(Last(final)) + 16 > MAX_COMPONENT
      || Crowded(fs.m, final)
  {
    var random := PickDigits();
    p := TempPath(final, random);
    TempPathFits(fs.m, final, random);
    ghost var m := fs.m;
    var taken := p in fs.m;
    var faults := fs.faults;
    made := fs.Mkdir(p, PRIVATE_DIR);
    collided := taken && fs.faults == faults;
    if made {
      forall q | q in fs.m
        ensures !(final <= q)
      {
      }
    } else if p in fs.m {
      assert Digits(random) && TempPath(final, random) in m;
      assert Crowded(fs.m, final);
    }
  }

  /** The staging directory with the empty approved directory in it. */
  function EmptyArea(): (t: Tree)
    ensures forall k :: k in t ==> |k| <= 1
    ensures [APPROVED] in t && t[[APPROVED]] == Dir(PRIVATE_DIR)
  {
    map[[] := Dir(PRIVATE_DIR), [APPROVED] := Dir(PRIVATE_DIR)]
  }

  /** A new directory can be removed again. */
  lemma FreshRemovable(m: Tree, path: Path, final: Path)
    requires Sub(m, path) == map[[] := Dir(PRIVATE_DIR)] && path != [] && CanCreate(m, final)
    requires Parent(path) == Parent(final)
    ensures Removable(m, path)
  {
    WritablePrivateDir();
    forall d | d in m && m[d].Dir? && path <= d
      ensures OwnerWritable(m[d].mode)
    {
      SubOutside(m, path, d);
    }
  }

  /** What `New` does with the directory it has made; a failure with its own cleanup failing takes two faults. */
  method FurnishTemp(fs: FileSystem, path: Path, final: Path) returns (ok: bool)
    requires Ready(fs, path, final) && Sub(fs.m, path) == map[[] := Dir(PRIVATE_DIR)]
    modifies fs
    ensures Within(fs, path)
    ensures ok ==> Sub(fs.m, path) == EmptyArea() && fs.faults == old(fs.faults)
    ensures !ok ==> fs.faults > old(fs.faults) && (fs.m == Outside(old(fs.m), path) || fs.faults > old(fs.faults) + 1)
    ensures !ok ==> NoFiles(Sub(fs.m, path))
  {
    hide Outside, Sub, CanCreateIn, Unwatched, Ready, Removable, EmptyArea, Submap;
    FreshUsable(fs.m, path, final, fs);
    ok := ChmodIn(fs, path, [], PRIVATE_DIR);
    if ok {
      ok := MkdirIn(fs, path, [APPROVED], PRIVATE_DIR);
    }
    if !ok {
      SplitAt(fs.m, old(fs.m), path);
      ghost var t := fs.m;
      var removed := RemoveAllAt(fs, path);
      SubmapRemains(t, fs.m, path);
      NoFilesRemain(Sub(t, path), Sub(fs.m, path));
    }
  }

  lemma NoFilesRemain(t: Tree, u: Tree)
    requires NoFiles(t) && Remains(t, u)
    ensures NoFiles(u)
  {
  }

  ghost predicate NoFiles(t: Tree) {
    forall k :: k in t ==> t[k].Dir?
  }

  /** At most one directory is left beside the final name, with no file in it. */
  ghost predicate EmptyLeftover(before: Tree, m: Tree, final: Path) {
    m == before || exists p :: Beside(before, m, p, final) && NoFiles(Sub(m, p))
  }

  /** Nothing has changed outside `p`, a new name beside the final one. */
  ghost predicate Beside(before: Tree, m: Tree, p: Path, final: Path) {
    p != [] && final != [] && Parent(p) == Parent(final) && p !in before && Outside(m, p) == before
  }

  lemma FreshUsable(m: Tree, path: Path, final: Path, fs: FileSystem)
    requires m == fs.m && Ready(fs, path, final) && Sub(m, path) == map[[] := Dir(PRIVATE_DIR)]
    ensures var t := Sub(m, path);
      && t[[]] == Dir(PRIVATE_DIR) && t[[] := Dir(PRIVATE_DIR)] == t && t[[APPROVED] := Dir(PRIVATE_DIR)] == EmptyArea()
      && CanCreateIn(t, [APPROVED])
    ensures Removable(m, path) && path != [] && Unwatched(fs, path)
  {
    WritablePrivateDir();
    assert |APPROVED| == 8;
    ShortName(APPROVED);
    FreshRemovable(m, path, final);
    assert Parent([APPROVED]) == [] && Last([APPROVED]) == APPROVED && [APPROVED][0] == APPROVED;
  }

  lemma FreshTemp(before: Tree, p: Path, final: Path)
    requires Rooted(before) && p !in before && p != [] && Apart(final, p)
    requires CanCreate(before, final) && Parent(p) == Parent(final) && Absent(before, final)
    ensures var m := before[p := Dir(PRIVATE_DIR)];
      Sub(m, p) == map[[] := Dir(PRIVATE_DIR)] && Outside(m, p) == before && CanCreate(m, final) && Absent(m, final)
  {
    AbsentBelow(before, p);
    UpdateInside(before, p, Dir(PRIVATE_DIR), p);
    assert p[|p|..] == [];
  }

  /** The approved directory of a new staging directory. */
  lemma EmptyAreaOpen(m: Tree, path: Path)
    requires Sub(m, path) == EmptyArea()
    ensures Sub(m, path + [APPROVED]) == map[[] := Dir(PRIVATE_DIR)]
    ensures OpenDirs(map[[] := Dir(PRIVATE_DIR)])
  {
    WritablePrivateDir();
    SubNested(m, path, [APPROVED]);
    var t := EmptyArea();
    hide EmptyArea, Sub;
    forall k
      ensures k in Sub(t, [APPROVED]) <==> k == []
      ensures k == [] ==> Sub(t, [APPROVED])[k] == Dir(PRIVATE_DIR)
    {
      assert k != [] ==> |[APPROVED] + k| > 1;
      assert [APPROVED] + [] == [APPROVED];
    }
  }

  lemma CreateNeedsParent(m: Tree, p: Path)
    requires CanCreate(m, p)
    ensures p !in m && Parent(p) in m && m[Parent(p)].Dir?
  {
  }

  /** `New` */
  method NewStaging(fs: FileSystem, lib: Library, final: Path) returns (r: Option<Staging>)
    requires fs.Valid() && final == fs.watch && final != [] && Normal(Last(final))
    modifies fs
    ensures fs.Valid() && fs.faults >= old(fs.faults) && fs.intact == old(fs.intact)
    ensures r.Some? ==>
      && fresh(r.value) && r.value.fs == fs && r.value.lib == lib && r.value.final == final
      && r.value.Open() && r.value.path !in old(fs.m) && Outside(fs.m, r.value.path) == old(fs.m)
      && Sub(fs.m, r.value.path) == EmptyArea() && fs.faults == old(fs.faults)
    ensures r.None? ==> fs.m == old(fs.m) || fs.faults > old(fs.faults) + 1
    ensures r.None? ==> EmptyLeftover(old(fs.m), fs.m, final)
    ensures r.None? ==>
      || fs.faults > old(fs.faults) || !CanCreate(old(fs.m), final) || ByteLen(Last(final)) + 16 > MAX_COMPONENT
      || Crowded(old(fs.m), final)
  {
    r := None;
    hide Sub, EmptyArea, OpenDirs, CanCreate;
    if CanCreate(fs.m, final) {
      CreateNeedsParent(fs.m, final);
    }
    var existing := fs.Lstat(final);
    if existing == Missing {
      AbsentBelow(fs.m, final);
      hide Outside;
      var above := fs.Lstat(Parent(final));
      if above == Present && fs.m[Parent(final)].Dir? {
        r := MakeStaging(fs, lib, final);
      }
    }
  }

  /** `New` from the creation of the directory on. */
  method MakeStaging(fs: FileSystem, lib: Library, final: Path) returns (r: Option<Staging>)
    requires fs.Valid() && final == fs.watch && final != [] && Absent(fs.m, final) && Normal(Last(final))
    modifies fs
    ensures fs.Valid() && fs.faults >= old(fs.faults) && fs.intact == old(fs.intact)
    ensures r.Some? ==>
      && fresh(r.value) && r.value.fs == fs && r.value.lib == lib && r.value.final == final
      && r.value.Open() && r.value.path !in old(fs.m) && Outside(fs.m, r.value.path) == old(fs.m)
      && Sub(fs.m, r.value.path) == EmptyArea() && fs.faults == old(fs.faults)
    ensures r.None? ==> fs.m == old(fs.m) || fs.faults > old(fs.faults) + 1
    ensures r.None? ==> EmptyLeftover(old(fs.m), fs.m, final)
    ensures r.None? ==>
      || fs.faults > old(fs.faults) || !CanCreate(old(fs.m), final) || ByteLen(Last(final)) + 16 > MAX_COMPONENT
      || Crowded(old(fs.m), final)
  {
    r := None;
    hide Outside, Sub, EmptyArea, OpenDirs, CanCreate;
    var p := MakeTemp(fs, final);
    if p.Some? {
      FreshTemp(old(fs.m), p.value, final);
      var ok := FurnishTemp(fs, p.value, final);
      if ok {
        EmptyAreaOpen(fs.m, p.value);
        StillFree(old(fs.m)[p.value := Dir(PRIVATE_DIR)], fs.m, p.value, final);
        var staging := new Staging(fs, lib, final, p.value);
        r := Some(staging);
      }
    }
  }

  /** Two trees that differ at most in two entries. */
  ghost predicate OnlyAt(t: Tree, u: Tree, a: Path, b: Path) {
    forall k :: k != a && k != b ==> (k in t <==> k in u) && (k in t ==> t[k] == u[k])
  }

  lemma StoredOnlyAt(t: Tree, a: Path, b: Path, v: Node)
    ensures OnlyAt(t, t, a, b) && OnlyAt(t, t[a := v], a, b) && OnlyAt(t, t[b := v], a, b)
  {
  }

  lemma SubNested(m: Tree, root: Path, j: Path)
    ensures Sub(m, root + j) == Sub(Sub(m, root), j)
  {
    hide Sub;
    forall k
      ensures k in Sub(m, root + j) <==> k in Sub(Sub(m, root), j)
      ensures k in Sub(m, root + j) ==> Sub(m, root + j)[k] == Sub(Sub(m, root), j)[k]
    {
      assert (root + j) + k == root + (j + k);
    }
  }

  lemma ManifestApart(m: Tree, n: Tree, root: Path)
    requires OnlyAt(Sub(m, root), Sub(n, root), [MANIFEST_TMP], [MANIFEST])
    ensures Sub(n, root + [APPROVED]) == Sub(m, root + [APPROVED])
  {
    SubNested(m, root, [APPROVED]);
    SubNested(n, root, [APPROVED]);
    ApprovedIsNotManifest();
    SameBelow(Sub(m, root), Sub(n, root), APPROVED);
  }

  lemma SameBelow(t: Tree, u: Tree, name: string)
    requires OnlyAt(t, u, [MANIFEST_TMP], [MANIFEST]) && name != MANIFEST && name != MANIFEST_TMP
    ensures Sub(t, [name]) == Sub(u, [name])
  {
    hide Sub, APPROVED, MANIFEST, MANIFEST_TMP;
    forall k
      ensures k in Sub(t, [name]) <==> k in Sub(u, [name])
      ensures k in Sub(t, [name]) ==> Sub(t, [name])[k] == Sub(u, [name])[k]
    {
      assert ([name] + k)[0] == name;
    }
  }

  lemma ApprovedIsNotManifest()
    ensures APPROVED != MANIFEST && APPROVED != MANIFEST_TMP
  {
    assert APPROVED[0] == 'a' && MANIFEST[0] == 'm' && MANIFEST_TMP[0] == 'm';
  }

  /** A nonempty name of at most 60 characters other than "." and ".." can be created. */
  lemma ShortName(c: string)
    requires 3 <= |c| <= 60
    ensures Normal(c) && ByteLen(c) <= MAX_COMPONENT && Creatable([c])
  {
    ByteLenBounds(c);
    hide ByteLen;
  }

  lemma ManifestNames()
    ensures Creatable([MANIFEST]) && Creatable([MANIFEST_TMP]) && MANIFEST != MANIFEST_TMP
  {
    assert |MANIFEST| == 13 && |MANIFEST_TMP| == 17;
    ShortName(MANIFEST);
    ShortName(MANIFEST_TMP);
  }

  /** Writing a file under a temporary name and renaming it: it appears whole, or not at all. */
  method WriteVia(fs: FileSystem, root: Path, tmp: Path, k: Path, data: Bytes) returns (ok: bool)
    requires Unwatched(fs, root)
    requires tmp != [] && k != [] && tmp != k && Parent(tmp) == Parent(k) && Creatable(tmp) && Creatable(k)
    modifies fs, fs.disk
    ensures Within(fs, root) && old(fs.disk.flushed) <= fs.disk.flushed
    ensures ok ==> Durable(root + k, data) in fs.disk.flushed
    ensures ok ==> Sub(fs.m, root) == Sub(old(fs.m), root)[k := File(PRIVATE_FILE, data)] && tmp !in Sub(fs.m, root)
    ensures ok ==> fs.faults == old(fs.faults)
    ensures OnlyAt(Sub(old(fs.m), root), Sub(fs.m, root), tmp, k)
    ensures !ok ==> fs.faults > old(fs.faults) || tmp in Sub(old(fs.m), root) || k in Sub(old(fs.m), root)
                    || !CanHold(Sub(old(fs.m), root), Parent(k))
  {
    ghost var t := Sub(fs.m, root);
    assert Normal(Last(tmp)) && ByteLen(Last(tmp)) <= MAX_COMPONENT;
    StoredOnlyAt(t, tmp, k, File(PRIVATE_FILE, data));
    hide Outside, Sub, Unwatched, Creatable, ByteLen, Normal, OnlyAt;
    ghost var v;
    ok, v := WriteNew(fs, root, tmp, data);
    StoredOnlyAt(t, tmp, k, v);
    if ok {
      RemovedAgain(t, tmp, File(PRIVATE_FILE, data));
      ok := RenameIn(fs, root, tmp, k);
    }
  }

  /** Creating a file and writing it; removed again if that fails. */
  method WriteNew(fs: FileSystem, root: Path, tmp: Path, data: Bytes) returns (ok: bool, ghost v: Node)
    requires Unwatched(fs, root)
    modifies fs, fs.disk
    ensures Within(fs, root) && old(fs.disk.flushed) <= fs.disk.flushed
    ensures ok ==> Durable(root + tmp, data) in fs.disk.flushed
    ensures ok ==>
      Sub(fs.m, root) == Sub(old(fs.m), root)[tmp := File(PRIVATE_FILE, data)] && fs.faults == old(fs.faults)
    ensures ok ==> tmp !in Sub(old(fs.m), root) && Outside(Sub(old(fs.m), root), tmp) == Sub(old(fs.m), root)
    ensures Sub(fs.m, root) == Sub(old(fs.m), root) || Sub(fs.m, root) == Sub(old(fs.m), root)[tmp := v]
    ensures !ok ==> fs.faults > old(fs.faults) || !CanCreateIn(Sub(old(fs.m), root), tmp)
  {
    ghost var t := Sub(fs.m, root);
    if tmp !in t {
      NothingBelow(fs.m, root, tmp);
    }
    hide Outside, Sub, Unwatched, CanCreateIn;
    v := File(PRIVATE_FILE, []);
    ok := CreateIn(fs, root, tmp, PRIVATE_FILE);
    if ok {
      var part;
      ok, part := WriteTemporary(fs, root, tmp, data);
      v := File(PRIVATE_FILE, part);
      StoredOver(t, tmp, File(PRIVATE_FILE, []), File(PRIVATE_FILE, part));
      if !ok {
        RemovedAgain(t, tmp, File(PRIVATE_FILE, part));
        var removed := TryRemoveIn(fs, root, tmp);
      }
    }
  }

  /** Writing, syncing and closing the temporary file. */
  method WriteTemporary(fs: FileSystem, root: Path, tmp: Path, data: Bytes) returns (ok: bool, part: Bytes)
    requires Unwatched(fs, root)
    requires tmp in Sub(fs.m, root) && Sub(fs.m, root)[tmp] == File(PRIVATE_FILE, [])
    modifies fs, fs.disk
    ensures Within(fs, root) && part <= data && old(fs.disk.flushed) <= fs.disk.flushed
    ensures ok ==> Durable(root + tmp, data) in fs.disk.flushed
    ensures Sub(fs.m, root) == Sub(old(fs.m), root)[tmp := File(PRIVATE_FILE, part)]
    ensures ok ==> part == data && fs.faults == old(fs.faults)
    ensures !ok ==> fs.faults > old(fs.faults)
  {
    hide Outside, Sub, Unwatched;
    var wrote := fs.Close();
    var n: nat :| n <= |data| && (wrote ==> n == |data|);
    part := data[..n];
    assert wrote ==> part == data;
    SetDataIn(fs, root, tmp, part);
    var synced := SyncIn(fs, root, tmp);
    var closed := fs.Close();
    ok := wrote && synced && closed;
  }

  /** Directories first, then perhaps part of the file: together a partial copy. */
  lemma CopyLeft(t: Tree, u: Tree, v: Tree, k: Path, data: Bytes)
    requires FreeSlot(t, k) && SomeDirsAdded(t, u, Parent(k))
    requires v == u || FillLeft(u, v, k, data) || v == u[k := File(PRIVATE_FILE, data)]
    ensures PartialCopy(t, v, k, data)
    ensures [] in v && v[[]].Dir? && OpenDirs(v)
  {
    WritablePrivateDir();
    assert forall q :: q in Prefixes(Parent(k)) ==> |q| < |k|;
    assert k !in u;
  }
}
