/** Extraction onto the file system: `Extract` and `consumeRejected` of internal/archive/zip.go. */
module Extraction {
  import opened Basics
  import opened Text
  import opened Sorting
  import opened PosixPath
  import opened Streams
  import opened BoundedCopy
  import opened FileSystems
  import opened Confined
  import opened ZipNames
  import opened PathPlan
  import opened Preflights

  datatype Outcome = Extracted(files: seq<Path>, stats: Stats) | Failed(code: Code, stats: Stats)

  /** Normalisation keeps a component safe; the only property of it that extraction needs. */
  ghost predicate NfcKeepsSafe(lib: Library) {
    forall c: string :: SafeComponent(c) ==> SafeComponent(lib.nfc(c))
  }

  // ----- What a successful extraction yields, as functions of the entries -----

  /** The names of the members that are written out, in archive order. */
  function RegularNames(es: seq<Entry>): seq<Path> {
    if es == [] then []
    else
      var front, e := es[..|es| - 1], es[|es| - 1];
      RegularNames(front) + if e.isDir || e.reject.Some? then [] else [e.name]
  }

  /** The members omitted by policy, with the size and digest of what they really contain. */
  function RejectedEntries(lib: Library, es: seq<Entry>): seq<RejectedEntry> {
    if es == [] then []
    else
      var front, e := es[..|es| - 1], es[|es| - 1];
      RejectedEntries(lib, front) +
      if e.isDir || e.reject.None? then []
      else [RejectedEntry(e.source, e.name, e.reject.value, |e.member.body.data|, lib.sha(e.member.body.data))]
  }

  /** The bytes decompressed on the way, those of rejected members included. */
  function BytesRead(es: seq<Entry>): nat {
    if es == [] then 0
    else BytesRead(es[..|es| - 1]) + if es[|es| - 1].isDir then 0 else |es[|es| - 1].member.body.data|
  }

  /** The tree of the written members. */
  function WrittenFiles(es: seq<Entry>): Tree {
    if es == [] then map[]
    else
      var front, e := es[..|es| - 1], es[|es| - 1];
      if e.isDir || e.reject.Some? then WrittenFiles(front)
      else WrittenFiles(front)[e.name := File(PRIVATE_FILE, e.member.body.data)]
  }

  function SourceNames(es: seq<Entry>): map<Path, Path> {
    if es == [] then map[]
    else
      var front, e := es[..|es| - 1], es[|es| - 1];
      if e.isDir || e.reject.Some? then SourceNames(front) else SourceNames(front)[e.name := e.source]
  }

  function Directories(paths: set<Path>): Tree {
    map k | k in paths :: Dir(PRIVATE_DIR)
  }

  /** A member whose stream really ends, with the announced checksum, within a limit. */
  predicate Sound(lib: Library, f: Member, limit: int) {
    && f.opens.None? && f.closes.None? && f.body.end == Eof
    && lib.crc(f.body.data) == f.crc && |f.body.data| <= limit
  }

  /** All members sound, and not too much of them together. */
  ghost predicate Extractable(lib: Library, es: seq<Entry>, limits: Limits) {
    && (forall e :: e in es && !e.isDir ==> Sound(lib, e.member, limits.maxFileBytes))
    && BytesRead(es) <= limits.maxTotalBytes
  }

  ghost predicate BodiesStall(es: seq<Entry>) {
    exists e :: e in es && e.member.body.stalls
  }

  lemma {:induction false} BytesReadSplit(a: seq<Entry>, b: seq<Entry>)
    ensures BytesRead(a + b) == BytesRead(a) + BytesRead(b)
  {
    if b == [] {
      assert a + b == a;
    } else {
      assert (a + b)[..|a + b| - 1] == a + b[..|b| - 1];
      BytesReadSplit(a, b[..|b| - 1]);
    }
  }

  lemma ExtractablePrefix(lib: Library, a: seq<Entry>, b: seq<Entry>, limits: Limits)
    requires Extractable(lib, a + b, limits)
    ensures Extractable(lib, a, limits)
  {
    BytesReadSplit(a, b);
    assert forall e :: e in a ==> e in a + b;
  }

  // ----- What the plan guarantees -----

  /** The facts about an accepted member list on which extraction relies. */
  ghost predicate Executable(es: seq<Entry>, nodes: map<Path, NodeInfo>) {
    && PrefixClosed(nodes)
    && (forall k :: k in nodes ==> Creatable(k))
    && (forall i :: 0 <= i < |es| ==> es[i].name in nodes && nodes[es[i].name].isDir == es[i].isDir)
    && (forall i, j :: 0 <= i < j < |es| ==> es[i].name != es[j].name)
  }

  lemma ClaimIsPlanned(lib: Library, files: seq<Member>, nodes: map<Path, NodeInfo>, i: nat)
    requires i < |files| && NodesPlanned(lib, nodes, files)
    ensures var e := EntryOf(lib, files[i]);
      && ClaimOf(lib, files[i]) in AllClaims(ClaimsMade(lib, files))
      && e.name in nodes && nodes[e.name].isDir == e.isDir
  {
    var es := ClaimsMade(lib, files);
    var c := ClaimOf(lib, files[i]);
    assert es[i] == c;
    assert c.path[..|c.path|] == c.path;
    assert PrefixClaim(c, |c.path|) == c;
    assert c in ClaimsOf(c);
    assert c in AllClaims(es);
  }

  lemma NamesDiffer(lib: Library, files: seq<Member>, nodes: map<Path, NodeInfo>, i: nat, j: nat)
    requires i < j < |files| && NodesPlanned(lib, nodes, files)
    requires PathsAccepted(lib, ClaimsMade(lib, files))
    ensures EntryOf(lib, files[i]).name != EntryOf(lib, files[j]).name
  {
    var es := ClaimsMade(lib, files);
    ClaimIsPlanned(lib, files, nodes, i);
    ClaimIsPlanned(lib, files, nodes, j);
    assert es[i].path == SourceOf(lib, files[i]) && es[j].path == SourceOf(lib, files[j]);
    if EntryOf(lib, files[i]).name == EntryOf(lib, files[j]).name {
      NfcThenFold(lib, es[i].path, es[j].path);
    }
  }

  /** Every component of an accepted source path is safe and short once normalised. */
  lemma SourceComponents(lib: Library, f: Member, limits: Limits)
    requires MemberAccepted(lib, f, limits) && NfcKeepsSafe(lib)
    ensures AllSafe(SourceOf(lib, f))
    ensures forall i :: 0 <= i < |SourceOf(lib, f)| ==>
      SafeComponent(lib.nfc(SourceOf(lib, f)[i])) && ByteLen(lib.nfc(SourceOf(lib, f)[i])) <= MAX_COMPONENT
  {
  }

  lemma NodeComponents(lib: Library, files: seq<Member>, nodes: map<Path, NodeInfo>, limits: Limits, k: Path)
    requires NodesPlanned(lib, nodes, files) && AllAccepted(lib, files, limits) && NfcKeepsSafe(lib) && k in nodes
    ensures Creatable(k) && AllSafe(k)
  {
    var es := ClaimsMade(lib, files);
    var e, n := NeededBy(lib, nodes, es, FullPaths(es), k);
    hide NodesPlanned, FullPaths;
    var j :| 0 <= j < |es| && es[j] == e;
    assert files[j] in files;
    SourceComponents(lib, files[j], limits);
    assert e.path == SourceOf(lib, files[j]);
    forall i | 0 <= i < |k|
      ensures Normal(k[i]) && ByteLen(k[i]) <= MAX_COMPONENT && SafeComponent(k[i])
    {
      assert k[i] == lib.nfc(e.path[i]);
    }
  }

  lemma AcceptedIsExecutable(lib: Library, files: seq<Member>, nodes: map<Path, NodeInfo>, limits: Limits)
    requires Accepted(lib, files, limits) && NodesPlanned(lib, nodes, files) && NfcKeepsSafe(lib)
    ensures Executable(EntriesOf(lib, files), nodes)
  {
    PlanIsTree(lib, nodes, ClaimsMade(lib, files));
    forall k | k in nodes
      ensures Creatable(k)
    {
      NodeComponents(lib, files, nodes, limits, k);
    }
    var es := EntriesOf(lib, files);
    forall i | 0 <= i < |es|
      ensures es[i].name in nodes && nodes[es[i].name].isDir == es[i].isDir
    {
      ClaimIsPlanned(lib, files, nodes, i);
    }
    forall i, j | 0 <= i < j < |es|
      ensures es[i].name != es[j].name
    {
      NamesDiffer(lib, files, nodes, i, j);
    }
  }

  /** Every proper prefix of a planned path is a planned directory. */
  lemma {:induction false} AncestorsPlanned(nodes: map<Path, NodeInfo>, k: Path, n: nat)
    requires PrefixClosed(nodes) && k in nodes && 1 <= n < |k|
    ensures k[..n] in nodes && nodes[k[..n]].isDir
    decreases |k|
  {
    assert Parent(k)[..n] == k[..n];
    if n < |k| - 1 {
      AncestorsPlanned(nodes, Parent(k), n);
    }
  }

  // ----- Directories -----

  lemma PathOrder()
    ensures TotalPreorder(PathAtMost)
  {
    forall p, q
      ensures PathAtMost(p, q) || PathAtMost(q, p)
    {
      if Less(Join(q), Join(p)) && Less(Join(p), Join(q)) {
        LessTransitive(Join(p), Join(q), Join(p));
        LessIrreflexive(Join(p));
      }
    }
    forall p, q, r | PathAtMost(p, q) && PathAtMost(q, r)
      ensures PathAtMost(p, r)
    {
      LessTotal(Join(p), Join(q));
      LessTotal(Join(q), Join(r));
      if Less(Join(r), Join(p)) {
        if Less(Join(p), Join(q)) {
          LessTransitive(Join(r), Join(p), Join(q));
        }
      }
    }
  }

  /** The elements of a set, in some order. */
  method ListOf(paths: set<Path>) returns (r: seq<Path>)
    ensures forall p :: p in r <==> p in paths
    ensures forall i, j :: 0 <= i < j < |r| ==> r[i] != r[j]
    ensures |r| == |paths|
  {
    var todo := paths;
    r := [];
    while todo != {}
      invariant todo <= paths && |r| + |todo| == |paths|
      invariant forall p :: p in r <==> p in paths && p !in todo
      invariant forall i, j :: 0 <= i < j < |r| ==> r[i] != r[j]
      decreases |todo|
    {
      var p :| p in todo;
      r, todo := r + [p], todo - {p};
    }
  }

  /** A list of directories in an order in which each can be created. */
  ghost predicate InCreationOrder(dirs: seq<Path>) {
    forall i :: 0 <= i < |dirs| ==>
      dirs[i] != [] && dirs[i] !in dirs[..i] && (Parent(dirs[i]) == [] || Parent(dirs[i]) in dirs[..i])
  }

  lemma SortedNext(r: seq<Path>, nodes: map<Path, NodeInfo>, i: nat)
    requires PrefixClosed(nodes) && i < |r|
    requires forall p :: p in r <==> p in DirNodes(nodes)
    requires forall i, j :: 0 <= i < j < |r| ==> r[i] != r[j]
    requires SortedBy(PathAtMost, r)
    ensures r[i] != [] && r[i] !in r[..i] && (Parent(r[i]) == [] || Parent(r[i]) in r[..i])
  {
    assert r[i] in r;
    if Parent(r[i]) != [] {
      var p := Parent(r[i]);
      assert p in DirNodes(nodes);
      var j :| 0 <= j < |r| && r[j] == p;
      AncestorsFirst(p, r[i]);
      assert i < j ==> PathAtMost(r[i], r[j]);
      assert j < i;
      assert r[..i][j] == p;
    }
  }

  /** `sort.Strings` on the planned directories yields one, since a path sorts before its descendants. */
  lemma SortedIsCreationOrder(dirs: seq<Path>, nodes: map<Path, NodeInfo>)
    requires PrefixClosed(nodes)
    requires forall p :: p in dirs <==> p in DirNodes(nodes)
    requires forall i, j :: 0 <= i < j < |dirs| ==> dirs[i] != dirs[j]
    ensures InCreationOrder(Sort(PathAtMost, dirs))
    ensures forall p :: p in Sort(PathAtMost, dirs) <==> p in DirNodes(nodes)
  {
    var r := Sort(PathAtMost, dirs);
    SortElements(PathAtMost, dirs);
    SortDistinct(PathAtMost, dirs);
    PathOrder();
    SortSorted(PathAtMost, dirs);
    forall i | 0 <= i < |r|
      ensures r[i] != [] && r[i] !in r[..i] && (Parent(r[i]) == [] || Parent(r[i]) in r[..i])
    {
      SortedNext(r, nodes, i);
    }
  }

  lemma ElementsSnoc(s: seq<Path>, p: Path)
    ensures Elements(s + [p]) == Elements(s) + {p}
  {
  }

  lemma NextDirectory(dirs: seq<Path>, i: nat)
    requires i < |dirs| && InCreationOrder(dirs) && Creatable(dirs[i])
    ensures CanCreateIn(Directories({[]} + Elements(dirs[..i])), dirs[i])
    ensures Directories({[]} + Elements(dirs[..i]))[dirs[i] := Dir(PRIVATE_DIR)] ==
      Directories({[]} + Elements(dirs[..i + 1]))
  {
    WritablePrivateDir();
    assert dirs[..i + 1] == dirs[..i] + [dirs[i]];
    ElementsSnoc(dirs[..i], dirs[i]);
  }

  /** `mkdir` and `chmod` of one planned directory. */
  method CreateDirectory(fs: FileSystem, dest: Path, k: Path) returns (ok: bool)
    requires Unwatched(fs, dest) && CanCreateIn(Sub(fs.m, dest), k) && OpenDirs(Sub(fs.m, dest))
    modifies fs
    ensures Within(fs, dest) && (ok <==> fs.faults == old(fs.faults)) && OpenDirs(Sub(fs.m, dest))
    ensures ok ==> Sub(fs.m, dest) == Sub(old(fs.m), dest)[k := Dir(PRIVATE_DIR)]
  {
    WritablePrivateDir();
    StoredOver(Sub(fs.m, dest), k, Dir(PRIVATE_DIR), Dir(PRIVATE_DIR));
    OpenStored(Sub(fs.m, dest), k, Dir(PRIVATE_DIR));
    hide Outside, Sub, CanCreateIn, Unwatched, OpenDirs;
    ok := MkdirIn(fs, dest, k, PRIVATE_DIR);
    if ok {
      ok := ChmodIn(fs, dest, k, PRIVATE_DIR);
    }
  }

  /** The same, unless canceled. */
  method MakeDirectory(ctx: Context, fs: FileSystem, dest: Path, k: Path) returns (err: Option<Code>)
    requires Unwatched(fs, dest) && CanCreateIn(Sub(fs.m, dest), k) && OpenDirs(Sub(fs.m, dest))
    modifies ctx, fs
    ensures old(ctx.done) ==> ctx.done
    ensures Within(fs, dest) && OpenDirs(Sub(fs.m, dest))
    ensures err.None? ==> Sub(fs.m, dest) == Sub(old(fs.m), dest)[k := Dir(PRIVATE_DIR)] && fs.faults == old(fs.faults)
    ensures err.Some? ==> (err.value == Canceled && ctx.done) || (err.value == IOError && fs.faults > old(fs.faults))
  {
    hide Outside, Sub, Unwatched, CanCreateIn, OpenDirs;
    err := ContextError(ctx);
    if err.None? {
      var ok := CreateDirectory(fs, dest, k);
      err := if ok then None else Some(IOError);
    }
  }

  /** The loop over the planned directories. */
  method MakeDirectories(ctx: Context, fs: FileSystem, dest: Path, dirs: seq<Path>) returns (err: Option<Code>)
    requires Unwatched(fs, dest)
    requires Sub(fs.m, dest) == Directories({[]})
    requires InCreationOrder(dirs) && forall i :: 0 <= i < |dirs| ==> Creatable(dirs[i])
    modifies ctx, fs
    ensures old(ctx.done) ==> ctx.done
    ensures Within(fs, dest) && OpenDirs(Sub(fs.m, dest))
    ensures err.None? ==> Sub(fs.m, dest) == Directories({[]} + Elements(dirs)) && fs.faults == old(fs.faults)
    ensures err.Some? ==> (err.value == Canceled && ctx.done) || (err.value == IOError && fs.faults > old(fs.faults))
  {
    DirectoriesOpen();
    hide Outside, Sub, Directories, Unwatched, OpenDirs, CanCreateIn, Creatable, InCreationOrder;
    assert {[]} + Elements(dirs[..0]) == {[]};
    err := None;
    var i := 0;
    while i < |dirs| && err.None?
      invariant 0 <= i <= |dirs|
      invariant old(ctx.done) ==> ctx.done
      invariant Within(fs, dest) && OpenDirs(Sub(fs.m, dest))
      invariant err.None? ==> Sub(fs.m, dest) == Directories({[]} + Elements(dirs[..i])) && fs.faults == old(fs.faults)
      invariant err.Some? ==>
        (err.value == Canceled && ctx.done) || (err.value == IOError && fs.faults > old(fs.faults))
    {
      NextDirectory(dirs, i);
      err := MakeDirectory(ctx, fs, dest, dirs[i]);
      i := i + 1;
    }
    assert dirs[..|dirs|] == dirs;
  }

  lemma DirectoriesOpen()
    ensures forall paths :: OpenDirs(Directories(paths))
  {
    WritablePrivateDir();
  }

  /** Collecting, sorting and creating the planned directories. */
  method MakePlannedDirectories(
    ctx: Context, fs: FileSystem, dest: Path, nodes: map<Path, NodeInfo>
  ) returns (err: Option<Code>)
    requires Unwatched(fs, dest)
    requires Sub(fs.m, dest) == Directories({[]})
    requires PrefixClosed(nodes) && forall k :: k in nodes ==> Creatable(k)
    modifies ctx, fs
    ensures old(ctx.done) ==> ctx.done
    ensures Within(fs, dest) && OpenDirs(Sub(fs.m, dest))
    ensures err.None? ==> Sub(fs.m, dest) == Directories({[]} + DirNodes(nodes)) && fs.faults == old(fs.faults)
    ensures err.Some? ==> (err.value == Canceled && ctx.done) || (err.value == IOError && fs.faults > old(fs.faults))
  {
    var dirs := ListOf(DirNodes(nodes));
    SortedIsCreationOrder(dirs, nodes);
    dirs := Sort(PathAtMost, dirs);
    assert forall i :: 0 <= i < |dirs| ==> dirs[i] in dirs;
    err := MakeDirectories(ctx, fs, dest, dirs);
    assert Elements(dirs) == DirNodes(nodes);
  }

  // ----- Members -----

  /** Why reading a member can fail. */
  ghost predicate ReadTrouble(ctx: Context, lib: Library, f: Member, allowed: int)
    reads ctx
  {
    ctx.done || f.body.stalls || allowed == MAX_INT64 || !Sound(lib, f, allowed)
  }

  /** A code that `copyAtMost` and its callers may return, with its cause. */
  ghost predicate CodeExplained(ctx: Context, code: Code, faulted: bool)
    reads ctx
  {
    && code != InvalidLimits && (code == Canceled ==> ctx.done) && (code == IOError ==> faulted)
  }

  /**
   The member holds more than is allowed, or its stream breaks off as that of a member does
   which has been cut, and the member announces no less than is allowed.
   */
  predicate OverLimit(f: Member, allowed: int) {
    |f.body.data| > allowed || (f.body.end == Broken(Format) && f.usize >= allowed)
  }

  /** What a code says about opening a member and reading it to its end. */
  predicate CopyFault(f: Member, allowed: int, code: Code) {
    match code
    case LimitExceeded => OverLimit(f, allowed) || allowed == MAX_INT64
    case Invalid =>
      || StreamFault(f.opens, code) || f.body.stalls
      || (StreamFault(BrokenBy(f.body.end), code) && !OverLimit(f, allowed))
    case Unsupported => StreamFault(f.opens, code) || StreamFault(BrokenBy(f.body.end), code)
    case ChecksumError => StreamFault(f.opens, code) || StreamFault(BrokenBy(f.body.end), code)
    case _ => false
  }

  /** What it says about closing a member that has been read to its end, and about its checksum. */
  predicate CloseFault(lib: Library, f: Member, code: Code) {
    f.body.end == Eof && (StreamFault(f.closes, code) || (code == ChecksumError && lib.crc(f.body.data) != f.crc))
  }

  predicate BodyFault(lib: Library, f: Member, allowed: int, code: Code) {
    CopyFault(f, allowed, code) || CloseFault(lib, f, code)
  }

  /** How much a member may yield when its turn comes. */
  function AllowedAt(es: seq<Entry>, limits: Limits, i: nat): int
    requires i <= |es|
  {
    Min(limits.maxFileBytes, limits.maxTotalBytes - BytesRead(es[..i]))
  }

  /** The first member that cannot be extracted, and what a code says about it. */
  ghost predicate BodiesFault(lib: Library, es: seq<Entry>, limits: Limits, code: Code) {
    exists i {:trigger AllowedAt(es, limits, i)} :: 0 <= i < |es| && !es[i].isDir &&
      Extractable(lib, es[..i], limits) && BodyFault(lib, es[i].member, AllowedAt(es, limits, i), code)
  }

  /** What is charged when a member has overrun: everything it was allowed, besides the members before it. */
  ghost predicate Overran(lib: Library, es: seq<Entry>, limits: Limits, charged: int) {
    exists i {:trigger AllowedAt(es, limits, i)} :: 0 <= i < |es| && !es[i].isDir &&
      Extractable(lib, es[..i], limits) && OverLimit(es[i].member, AllowedAt(es, limits, i)) &&
      charged == BytesRead(es[..i]) + AllowedAt(es, limits, i)
  }

  /** Members that can be extracted have no such fault, unless one stalls. */
  lemma ExtractableFaultless(lib: Library, es: seq<Entry>, limits: Limits, code: Code)
    requires Extractable(lib, es, limits) && !BodiesStall(es) && limits.maxFileBytes < MAX_INT64
    ensures !BodiesFault(lib, es, limits, code)
  {
    hide BytesRead;
    forall i {:trigger AllowedAt(es, limits, i)} | 0 <= i < |es| && !es[i].isDir
      ensures !BodyFault(lib, es[i].member, AllowedAt(es, limits, i), code)
    {
      assert es == es[..i + 1] + es[i + 1..] && es[..i + 1] == es[..i] + [es[i]];
      ExtractablePrefix(lib, es[..i + 1], es[i + 1..], limits);
      ExtractableSnoc(lib, es[..i], es[i], limits);
      assert es[i] in es && !es[i].member.body.stalls;
    }
  }

  /** The fault of one member within what was left for it is the fault of all members. */
  lemma BodyFaultAmong(lib: Library, front: seq<Entry>, e: Entry, back: seq<Entry>, limits: Limits, code: Code)
    requires !e.isDir && Extractable(lib, front, limits)
    requires BodyFault(lib, e.member, Min(limits.maxFileBytes, limits.maxTotalBytes - BytesRead(front)), code)
    ensures BodiesFault(lib, front + [e] + back, limits, code)
    ensures code == LimitExceeded && limits.maxFileBytes < MAX_INT64 ==>
      Overran(lib, front + [e] + back, limits,
              BytesRead(front) + Min(limits.maxFileBytes, limits.maxTotalBytes - BytesRead(front)))
  {
    hide Extractable, BytesRead, CopyFault, CloseFault;
    var es := front + [e] + back;
    assert es[..|front|] == front && es[|front|] == e;
    assert AllowedAt(es, limits, |front|) == Min(limits.maxFileBytes, limits.maxTotalBytes - BytesRead(front));
    assert BodyFault(lib, es[|front|].member, AllowedAt(es, limits, |front|), code);
    if code == LimitExceeded && limits.maxFileBytes < MAX_INT64 {
      OnlyOverLimit(lib, e.member, AllowedAt(es, limits, |front|));
    }
  }

  lemma OnlyOverLimit(lib: Library, f: Member, allowed: int)
    requires BodyFault(lib, f, allowed, LimitExceeded) && allowed != MAX_INT64
    ensures OverLimit(f, allowed)
  {
  }

  /** The count to charge and the code to report when the copy of a member has failed. */
  function ChargeFailure(f: Member, n: int, err: CopyError, allowed: int): (r: (int, Code)) {
    if err == FromSource(Format) && f.usize >= allowed then (Max(n, allowed), LimitExceeded) else (n, Classify(err))
  }

  /**
   Opening a member and copying it, up to closing both ends: common to members
   that are written and members that are only read.
   */
  method CopyBody(ctx: Context, meter: Meter, f: Member, allowed: int, perfect: bool)
    returns (data: Bytes, n: nat, err: Option<Code>, writeFailed: bool)
    requires allowed >= 0
    modifies ctx, meter
    ensures old(ctx.done) ==> ctx.done
    ensures meter.total == old(meter.total) + |data| && |data| <= n <= allowed
    ensures n == if err == Some(LimitExceeded) && allowed != MAX_INT64 then allowed else |data|
    ensures data <= f.body.data && (perfect ==> !writeFailed)
    ensures err.None? ==> f.opens.None? && data == f.body.data && f.body.end == Eof && n == |data| && !writeFailed
    ensures err.Some? ==> writeFailed || ctx.done || f.body.stalls || allowed == MAX_INT64
                          || f.opens.Some? || f.body.end != Eof || |f.body.data| > allowed
    ensures err.Some? ==> CodeExplained(ctx, err.value, writeFailed)
    ensures err.Some? ==> err.value in {Canceled, IOError} || CopyFault(f, allowed, err.value)
  {
    if f.opens.Some? {
      return [], 0, Some(Classify(FromSource(f.opens.value))), false;
    }
    var src := new Source(f.body);
    var out := new Sink(perfect);
    var count, copyErr := CopyAtMost(ctx, out, src, allowed);
    data, n, writeFailed := out.data, count, out.failed;
    meter.Count(|data|);
    if copyErr.Some? {
      var charge := ChargeFailure(f, count, copyErr.value, allowed);
      return data, charge.0, Some(charge.1), writeFailed;
    }
    err := None;
  }

  /** Closing the member and comparing its checksum. */
  method FinishBody(lib: Library, f: Member, data: Bytes) returns (err: Option<Code>)
    ensures err.None? <==> f.closes.None? && lib.crc(data) == f.crc
    ensures err.Some? ==> ArchiveFault(err.value) && err.value != Canceled
    ensures err.Some? ==> err.value in {Invalid, Unsupported, ChecksumError}
    ensures err.Some? ==>
      StreamFault(f.closes, err.value) || (err.value == ChecksumError && lib.crc(data) != f.crc)
  {
    if f.closes.Some? {
      return Some(Classify(FromSource(f.closes.value)));
    }
    if lib.crc(data) != f.crc {
      return Some(ChecksumError);
    }
    err := None;
  }

  /** `consumeRejected`: reads a member that will not be written, to its end. */
  method ConsumeRejected(ctx: Context, meter: Meter, lib: Library, e: Entry, allowed: int)
    returns (r: Result<RejectedEntry, Code>, n: nat)
    requires allowed >= 0 && e.reject.Some?
    modifies ctx, meter
    ensures old(ctx.done) ==> ctx.done
    ensures n <= allowed && meter.total <= old(meter.total) + n
    ensures n == if r == Err(LimitExceeded) && allowed != MAX_INT64 then allowed else meter.total - old(meter.total)
    ensures r.Ok? ==> Sound(lib, e.member, allowed) && n == |e.member.body.data|
    ensures r.Ok? ==> r.value == RejectedEntry(e.source, e.name, e.reject.value, n, lib.sha(e.member.body.data))
    ensures r.Err? ==> ReadTrouble(ctx, lib, e.member, allowed) && CodeExplained(ctx, r.error, false)
    ensures r.Err? ==> r.error == Canceled || BodyFault(lib, e.member, allowed, r.error)
  {
    var data, count, err, _ := CopyBody(ctx, meter, e.member, allowed, true);
    n := count;
    if err.Some? {
      return Err(err.value), n;
    }
    err := FinishBody(lib, e.member, data);
    if err.Some? {
      return Err(err.value), n;
    }
    r := Ok(RejectedEntry(e.source, e.name, e.reject.value, n, lib.sha(data)));
  }

  /** `open(O_CREAT|O_EXCL)` and `fchmod` of one output file. */
  method CreateOutput(fs: FileSystem, dest: Path, k: Path) returns (ok: bool)
    requires Unwatched(fs, dest) && CanCreateIn(Sub(fs.m, dest), k) && OpenDirs(Sub(fs.m, dest))
    modifies fs
    ensures Within(fs, dest) && (ok <==> fs.faults == old(fs.faults)) && OpenDirs(Sub(fs.m, dest))
    ensures ok ==> Sub(fs.m, dest) == Sub(old(fs.m), dest)[k := File(PRIVATE_FILE, [])]
  {
    StoredOver(Sub(fs.m, dest), k, File(PRIVATE_FILE, []), File(PRIVATE_FILE, []));
    OpenStored(Sub(fs.m, dest), k, File(PRIVATE_FILE, []));
    hide Outside, Sub, CanCreateIn, Unwatched, OpenDirs;
    ok := CreateIn(fs, dest, k, PRIVATE_FILE);
    if ok {
      ok := ChmodIn(fs, dest, k, PRIVATE_FILE);
    }
  }

  /** What an output file holds in the end, and closing it. */
  method StoreOutput(fs: FileSystem, dest: Path, k: Path, data: Bytes, writeFailed: bool) returns (ok: bool)
    requires Unwatched(fs, dest) && OpenDirs(Sub(fs.m, dest))
    requires k in Sub(fs.m, dest) && Sub(fs.m, dest)[k].File?
    modifies fs
    ensures Within(fs, dest) && OpenDirs(Sub(fs.m, dest))
    ensures Sub(fs.m, dest) == Sub(old(fs.m), dest)[k := Sub(old(fs.m), dest)[k].(data := data)]
    ensures writeFailed || !ok <==> fs.faults > old(fs.faults)
  {
    OpenStored(Sub(fs.m, dest), k, Sub(fs.m, dest)[k].(data := data));
    hide Outside, Sub, OpenDirs, Unwatched;
    SetDataIn(fs, dest, k, data);
    if writeFailed {
      fs.Fault();
    }
    ok := fs.Close();
  }

  /** The body of the loop of `Extract` for a member that is written. */
  method WriteMember(ctx: Context, meter: Meter, lib: Library, fs: FileSystem, dest: Path, e: Entry, allowed: int)
    returns (err: Option<Code>, n: nat)
    requires allowed >= 0
    requires Unwatched(fs, dest) && CanCreateIn(Sub(fs.m, dest), e.name) && OpenDirs(Sub(fs.m, dest))
    modifies ctx, meter, fs
    ensures old(ctx.done) ==> ctx.done
    ensures n <= allowed && meter.total <= old(meter.total) + n
    ensures n ==
      if err == Some(LimitExceeded) && allowed != MAX_INT64 then allowed else meter.total - old(meter.total)
    ensures Within(fs, dest) && OpenDirs(Sub(fs.m, dest))
    ensures err.None? ==> Sound(lib, e.member, allowed) && n == |e.member.body.data| && fs.faults == old(fs.faults)
    ensures err.None? ==> Sub(fs.m, dest) == Sub(old(fs.m), dest)[e.name := File(PRIVATE_FILE, e.member.body.data)]
    ensures err.Some? ==> fs.faults > old(fs.faults) || ReadTrouble(ctx, lib, e.member, allowed)
    ensures err.Some? ==> CodeExplained(ctx, err.value, fs.faults > old(fs.faults))
    ensures err.Some? ==> err.value in {Canceled, IOError} || BodyFault(lib, e.member, allowed, err.value)
  {
    StoredOver(Sub(fs.m, dest), e.name, File(PRIVATE_FILE, []), File(PRIVATE_FILE, e.member.body.data));
    hide Outside, Sub, CanCreateIn, OpenDirs, Unwatched, CopyFault, Classify, StreamFault;
    err, n := Some(IOError), 0;
    var created := CreateOutput(fs, dest, e.name);
    if created {
      var data, count, copyErr, writeFailed := CopyBody(ctx, meter, e.member, allowed, false);
      n := count;
      var closed := StoreOutput(fs, dest, e.name, data, writeFailed);
      if copyErr.Some? {
        err := copyErr;
      } else {
        err := FinishBody(lib, e.member, data);
        if !closed && e.member.closes.None? {
          err := Some(IOError);
        }
      }
    }
  }

  predicate IsWritten(e: Entry) {
    !e.isDir && e.reject.None?
  }

  lemma {:induction false} WrittenKeys(es: seq<Entry>, k: Path)
    ensures k in WrittenFiles(es) <==> exists j :: 0 <= j < |es| && IsWritten(es[j]) && es[j].name == k
    ensures k in WrittenFiles(es) ==> WrittenFiles(es)[k].File? && WrittenFiles(es)[k].mode == PRIVATE_FILE
  {
    if es != [] {
      WrittenKeys(es[..|es| - 1], k);
      if k in WrittenFiles(es[..|es| - 1]) {
        var j :| 0 <= j < |es| - 1 && IsWritten(es[..|es| - 1][j]) && es[..|es| - 1][j].name == k;
        assert es[j].name == k;
      }
      if j :| 0 <= j < |es| && IsWritten(es[j]) && es[j].name == k {
        assert j < |es| - 1 ==> es[..|es| - 1][j] == es[j];
      }
    }
  }

  /** The tree below the destination once some members have been written. */
  ghost function Written(nodes: map<Path, NodeInfo>, front: seq<Entry>): Tree {
    Directories({[]} + DirNodes(nodes)) + WrittenFiles(front)
  }

  function AfterEntry(t: Tree, e: Entry): Tree {
    if IsWritten(e) then t[e.name := File(PRIVATE_FILE, e.member.body.data)] else t
  }

  /** The next member always finds its directory in place and its name free. */
  lemma NextMember(es: seq<Entry>, nodes: map<Path, NodeInfo>, i: nat)
    requires i < |es| && Executable(es, nodes)
    ensures IsWritten(es[i]) ==> CanCreateIn(Written(nodes, es[..i]), es[i].name)
    ensures Written(nodes, es[..i + 1]) == AfterEntry(Written(nodes, es[..i]), es[i])
  {
    var k := es[i].name;
    WritablePrivateDir();
    assert Creatable(k);
    WrittenKeys(es[..i], k);
    WrittenKeys(es[..i], Parent(k));
    assert es[..i + 1][..i] == es[..i];
    assert forall j :: 0 <= j < i ==> es[..i][j] == es[j];
  }

  /** What the loop has accumulated. */
  datatype Progress = Progress(files: seq<Path>, extracted: nat, rejected: seq<RejectedEntry>, sources: map<Path, Path>)

  function ProgressOf(lib: Library, front: seq<Entry>): Progress {
    Progress(RegularNames(front), BytesRead(front), RejectedEntries(lib, front), SourceNames(front))
  }

  /** One turn of the loop of `Extract` over the entries. */
  method ExtractEntry(
    ctx: Context, meter: Meter, lib: Library, fs: FileSystem, dest: Path, e: Entry, limits: Limits, p: Progress
  )
    returns (err: Option<Code>, q: Progress)
    requires ValidLimits(limits) && p.extracted <= limits.maxTotalBytes
    requires Unwatched(fs, dest) && (IsWritten(e) ==> CanCreateIn(Sub(fs.m, dest), e.name)) && OpenDirs(Sub(fs.m, dest))
    modifies ctx, meter, fs
    ensures old(ctx.done) ==> ctx.done
    ensures meter.total - old(meter.total) <= q.extracted - p.extracted
    ensures var allowed := Min(limits.maxFileBytes, limits.maxTotalBytes - p.extracted);
      q.extracted - p.extracted ==
      if err == Some(LimitExceeded) && allowed != MAX_INT64 then allowed else meter.total - old(meter.total)
    ensures Within(fs, dest) && q.extracted <= limits.maxTotalBytes && OpenDirs(Sub(fs.m, dest))
    ensures err.None? ==> Sub(fs.m, dest) == AfterEntry(Sub(old(fs.m), dest), e)
    ensures err.None? ==> fs.faults == old(fs.faults)
    ensures err.None? && e.isDir ==> q == p
    ensures err.None? && !e.isDir ==>
      && Sound(lib, e.member, Min(limits.maxFileBytes, limits.maxTotalBytes - p.extracted))
      && q.extracted == p.extracted + |e.member.body.data|
      && (e.reject.None? ==>
        q == p.(files := p.files + [e.name], extracted := q.extracted, sources := p.sources[e.name := e.source]))
      && (e.reject.Some? ==> q == p.(extracted := q.extracted, rejected := p.rejected +
            [RejectedEntry(e.source, e.name, e.reject.value, |e.member.body.data|, lib.sha(e.member.body.data))]))
    ensures err.Some? ==> !e.isDir && CodeExplained(ctx, err.value, fs.faults > old(fs.faults))
    ensures err.Some? ==>
      || err.value in {Canceled, IOError}
      || BodyFault(lib, e.member, Min(limits.maxFileBytes, limits.maxTotalBytes - p.extracted), err.value)
    ensures err.Some? ==>
      fs.faults > old(fs.faults) ||
        ReadTrouble(ctx, lib, e.member, Min(limits.maxFileBytes, limits.maxTotalBytes - p.extracted))
  {
    q := p;
    if e.isDir {
      return None, q;
    }
    var canceled := ContextError(ctx);
    if canceled.Some? {
      return canceled, q;
    }
    var remaining := limits.maxTotalBytes - p.extracted;
    var allowed := Min(limits.maxFileBytes, remaining);
    if e.reject.Some? {
      var rejected, n := ConsumeRejected(ctx, meter, lib, e, allowed);
      q := q.(extracted := p.extracted + n);
      if rejected.Err? {
        return Some(rejected.error), q;
      }
      return None, q.(rejected := p.rejected + [rejected.value]);
    }
    var failed, n := WriteMember(ctx, meter, lib, fs, dest, e, allowed);
    q := q.(extracted := p.extracted + n);
    if failed.Some? {
      return failed, q;
    }
    err, q := None, q.(files := p.files + [e.name], sources := p.sources[e.name := e.source]);
  }

  lemma ProgressSnoc(lib: Library, front: seq<Entry>, e: Entry)
    ensures ProgressOf(lib, front).extracted == BytesRead(front)
    ensures var p, size := ProgressOf(lib, front), |e.member.body.data|;
      ProgressOf(lib, front + [e]) ==
      if e.isDir then p
      else if e.reject.None? then
        Progress(p.files + [e.name], p.extracted + size, p.rejected, p.sources[e.name := e.source])
      else
        p.(extracted := p.extracted + size,
           rejected := p.rejected +
             [RejectedEntry(e.source, e.name, e.reject.value, size, lib.sha(e.member.body.data))])
  {
    assert (front + [e])[..|front|] == front;
  }

  lemma SoundWithin(lib: Library, f: Member, a: int, b: int)
    ensures Sound(lib, f, Min(a, b)) <==> Sound(lib, f, a) && |f.body.data| <= b
  {
  }

  lemma BytesReadSnoc(front: seq<Entry>, e: Entry)
    ensures BytesRead(front + [e]) == BytesRead(front) + if e.isDir then 0 else |e.member.body.data|
  {
    assert (front + [e])[..|front|] == front;
  }

  lemma ExtractableSnoc(lib: Library, front: seq<Entry>, e: Entry, limits: Limits)
    ensures Extractable(lib, front + [e], limits) <==>
            && Extractable(lib, front, limits)
            && (!e.isDir ==> Sound(lib, e.member, Min(limits.maxFileBytes, limits.maxTotalBytes - BytesRead(front))))
    ensures Extractable(lib, front, limits) ==> BytesRead(front) <= limits.maxTotalBytes
  {
    BytesReadSnoc(front, e);
    SoundWithin(lib, e.member, limits.maxFileBytes, limits.maxTotalBytes - BytesRead(front));
    hide Sound, BytesRead;
    assert forall x :: x in front + [e] <==> x in front || x == e;
  }

  /** One turn of that loop, in terms of all entries. */
  method ExtractNext(
    ctx: Context, meter: Meter, lib: Library, fs: FileSystem, dest: Path, es: seq<Entry>, i: nat,
    ghost nodes: map<Path, NodeInfo>, limits: Limits, p: Progress
  ) returns (err: Option<Code>, q: Progress)
    requires ValidLimits(limits) && Executable(es, nodes) && i < |es|
    requires Unwatched(fs, dest) && Sub(fs.m, dest) == Written(nodes, es[..i]) && OpenDirs(Sub(fs.m, dest))
    requires Extractable(lib, es[..i], limits) && p == ProgressOf(lib, es[..i]) && p.extracted <= limits.maxTotalBytes
    modifies ctx, meter, fs
    ensures old(ctx.done) ==> ctx.done
    ensures meter.total - old(meter.total) <= q.extracted - p.extracted
    ensures err != Some(LimitExceeded) ==> meter.total - old(meter.total) == q.extracted - p.extracted
    ensures err == Some(LimitExceeded) && limits.maxFileBytes < MAX_INT64 ==> Overran(lib, es, limits, q.extracted)
    ensures Within(fs, dest) && q.extracted <= limits.maxTotalBytes && OpenDirs(Sub(fs.m, dest))
    ensures err.None? ==>
      Extractable(lib, es[..i + 1], limits) && q == ProgressOf(lib, es[..i + 1]) && fs.faults == old(fs.faults)
    ensures err.None? ==> Sub(fs.m, dest) == Written(nodes, es[..i + 1])
    ensures err.Some? ==> CodeExplained(ctx, err.value, fs.faults > old(fs.faults))
    ensures err.Some? ==> Excused(ctx, lib, es, limits, fs.faults > old(fs.faults))
    ensures err.Some? ==> err.value in {Canceled, IOError} || BodiesFault(lib, es, limits, err.value)
  {
    hide Outside, Sub, Written, ProgressOf, Extractable, BytesRead, Unwatched, OpenDirs, Executable, AfterEntry,
      CanCreateIn, CodeExplained, BodyFault, BodiesFault, Overran;
    assert es[..i + 1] == es[..i] + [es[i]];
    ProgressSnoc(lib, es[..i], es[i]);
    ExtractableSnoc(lib, es[..i], es[i], limits);
    NextMember(es, nodes, i);
    err, q := ExtractEntry(ctx, meter, lib, fs, dest, es[i], limits, p);
    if err.Some? {
      assert es == es[..i + 1] + es[i + 1..];
      if Extractable(lib, es, limits) {
        ExtractablePrefix(lib, es[..i + 1], es[i + 1..], limits);
      }
      if err.value != Canceled && err.value != IOError {
        assert es == es[..i] + [es[i]] + es[i + 1..];
        BodyFaultAmong(lib, es[..i], es[i], es[i + 1..], limits, err.value);
      }
    }
  }

  /** Why extracting some entries may fail. */
  ghost predicate Excused(ctx: Context, lib: Library, es: seq<Entry>, limits: Limits, faulted: bool)
    reads ctx
  {
    || ctx.done || faulted || BodiesStall(es) || limits.maxFileBytes >= MAX_INT64
    || !Extractable(lib, es, limits)
  }

  lemma NothingExtracted(lib: Library, limits: Limits)
    requires ValidLimits(limits)
    ensures ProgressOf(lib, []) == Progress([], 0, [], map[]) && Extractable(lib, [], limits)
  {
  }

  /** The loop of `Extract` over the entries. */
  method ExtractEntries(
    ctx: Context, meter: Meter, lib: Library, fs: FileSystem, dest: Path, es: seq<Entry>,
    ghost nodes: map<Path, NodeInfo>, limits: Limits
  )
    returns (err: Option<Code>, p: Progress)
    requires ValidLimits(limits) && Executable(es, nodes)
    requires Unwatched(fs, dest) && Sub(fs.m, dest) == Written(nodes, []) && OpenDirs(Sub(fs.m, dest))
    modifies ctx, meter, fs
    ensures old(ctx.done) ==> ctx.done
    ensures meter.total <= old(meter.total) + p.extracted
    ensures err != Some(LimitExceeded) ==> meter.total == old(meter.total) + p.extracted
    ensures err == Some(LimitExceeded) && limits.maxFileBytes < MAX_INT64 ==> Overran(lib, es, limits, p.extracted)
    ensures Within(fs, dest) && p.extracted <= limits.maxTotalBytes && OpenDirs(Sub(fs.m, dest))
    ensures err.None? ==> Extractable(lib, es, limits) && p == ProgressOf(lib, es) && fs.faults == old(fs.faults)
    ensures err.None? ==> Sub(fs.m, dest) == Written(nodes, es)
    ensures err.Some? ==> CodeExplained(ctx, err.value, fs.faults > old(fs.faults))
    ensures err.Some? ==> Excused(ctx, lib, es, limits, fs.faults > old(fs.faults))
    ensures err.Some? ==> err.value in {Canceled, IOError} || BodiesFault(lib, es, limits, err.value)
  {
    hide Outside, Sub, Written, ProgressOf, Extractable, BytesRead, Unwatched, OpenDirs, Executable, CodeExplained,
      Excused, BodiesFault, Overran;
    err, p := None, Progress([], 0, [], map[]);
    NothingExtracted(lib, limits);
    assert es[..0] == [];
    var i := 0;
    while i < |es| && err.None?
      invariant 0 <= i <= |es|
      invariant old(ctx.done) ==> ctx.done
      invariant meter.total <= old(meter.total) + p.extracted
      invariant err != Some(LimitExceeded) ==> meter.total == old(meter.total) + p.extracted
      invariant err == Some(LimitExceeded) && limits.maxFileBytes < MAX_INT64 ==> Overran(lib, es, limits, p.extracted)
      invariant Within(fs, dest) && OpenDirs(Sub(fs.m, dest)) && p.extracted <= limits.maxTotalBytes
      invariant err.None? ==> fs.faults == old(fs.faults) && Sub(fs.m, dest) == Written(nodes, es[..i])
      invariant err.None? ==> Extractable(lib, es[..i], limits) && p == ProgressOf(lib, es[..i])
      invariant err.Some? ==> CodeExplained(ctx, err.value, fs.faults > old(fs.faults))
      invariant err.Some? ==> Excused(ctx, lib, es, limits, fs.faults > old(fs.faults))
      invariant err.Some? ==> err.value in {Canceled, IOError} || BodiesFault(lib, es, limits, err.value)
    {
      err, p := ExtractNext(ctx, meter, lib, fs, dest, es, i, nodes, limits, p);
      i := i + 1;
    }
    assert es[..|es|] == es;
  }

  /** Why an extraction may not succeed, other than cancellation and operating-system faults. */
  ghost predicate Refusable(lib: Library, m: Tree, zip: Path, limits: Limits) {
    || limits.maxEntries < 0 || !Opens(lib, m, zip, limits.maxEntries)
    || !Accepted(lib, MembersAt(lib, m, zip), limits)
    || !Extractable(lib, EntriesOf(lib, MembersAt(lib, m, zip)), limits)
    || MayStall(MembersAt(lib, m, zip)) || BodiesStall(EntriesOf(lib, MembersAt(lib, m, zip)))
    || limits.maxFileBytes >= MAX_INT64
  }

  /** What a code of `Extract` says about a file that can be read. */
  ghost predicate ContainerFault(lib: Library, data: Bytes, limits: Limits, code: Code) {
    || FileFault(lib, data, limits, code)
    || (lib.parse(data).Some? && BodiesFault(lib, EntriesOf(lib, lib.parse(data).value), limits, code))
  }

  /**
   Why a limit was reported, and what was charged: the file itself is beyond the limits and nothing
   was unpacked, a member overran, or the limit is of no use.
   */
  ghost predicate LimitCause(lib: Library, data: Bytes, limits: Limits, charged: int, delivered: int) {
    || (FileFault(lib, data, limits, LimitExceeded) && charged == delivered == 0)
    || (lib.parse(data).Some? && Overran(lib, EntriesOf(lib, lib.parse(data).value), limits, charged))
    || limits.maxFileBytes >= MAX_INT64
  }

  /** The plan `preflight` makes for members it accepts. */
  ghost predicate PlanFor(lib: Library, files: seq<Member>, plan: Plan, limits: Limits) {
    && Accepted(lib, files, limits) && plan.entries == EntriesOf(lib, files)
    && NodesPlanned(lib, plan.nodes, files) && plan.declared == TotalDeclared(files)
  }

  /** What a successful extraction of some members into `dest` has done. */
  ghost predicate ExtractedAs(
    lib: Library, files: seq<Member>, nodes: map<Path, NodeInfo>, r: Outcome, t: Tree, limits: Limits
  )
    requires r.Extracted?
  {
    var es := EntriesOf(lib, files);
    && Accepted(lib, files, limits) && Extractable(lib, es, limits)
    && r.files == Sort(PathAtMost, RegularNames(es))
    && r.stats.entries == |files| && r.stats.files == |r.files|
    && r.stats.declared == TotalDeclared(files) && r.stats.extracted == BytesRead(es)
    && r.stats.rejected == RejectedEntries(lib, es) && r.stats.sourcePaths == SourceNames(es)
    && NodesPlanned(lib, nodes, files) && r.stats.directories == |DirNodes(nodes)| && t == Written(nodes, es)
  }

  /** The destination before anything is written into it. */
  lemma NothingWritten(es: seq<Entry>, nodes: map<Path, NodeInfo>)
    requires Executable(es, nodes)
    ensures PrefixClosed(nodes) && (forall k :: k in nodes ==> Creatable(k))
    ensures Written(nodes, []) == Directories({[]} + DirNodes(nodes))
    ensures var t := Directories({[]}); [] in t && t[[]] == Dir(PRIVATE_DIR) && t[[] := Dir(PRIVATE_DIR)] == t
  {
  }

  /** Everything `Extract` does between creating the destination and returning. */
  method Populate(ctx: Context, meter: Meter, lib: Library, fs: FileSystem, dest: Path, plan: Plan, limits: Limits)
    returns (err: Option<Code>, p: Progress)
    requires ValidLimits(limits) && Executable(plan.entries, plan.nodes)
    requires Unwatched(fs, dest) && Sub(fs.m, dest) == Directories({[]})
    modifies ctx, meter, fs
    ensures old(ctx.done) ==> ctx.done
    ensures meter.total <= old(meter.total) + p.extracted
    ensures err != Some(LimitExceeded) ==> meter.total == old(meter.total) + p.extracted
    ensures err == Some(LimitExceeded) && limits.maxFileBytes < MAX_INT64 ==>
      Overran(lib, plan.entries, limits, p.extracted)
    ensures Within(fs, dest) && p.extracted <= limits.maxTotalBytes && OpenDirs(Sub(fs.m, dest))
    ensures err.None? ==>
      Extractable(lib, plan.entries, limits) && p == ProgressOf(lib, plan.entries) && fs.faults == old(fs.faults)
    ensures err.None? ==> Sub(fs.m, dest) == Written(plan.nodes, plan.entries)
    ensures err.Some? ==> CodeExplained(ctx, err.value, fs.faults > old(fs.faults))
    ensures err.Some? ==> Excused(ctx, lib, plan.entries, limits, fs.faults > old(fs.faults))
    ensures err.Some? ==> err.value in {Canceled, IOError} || BodiesFault(lib, plan.entries, limits, err.value)
  {
    hide Outside, Sub, Directories, Written, Unwatched, OpenDirs, Extractable, ProgressOf, Executable, PrefixClosed,
      Creatable, BodiesStall, BodiesFault, Overran;
    p := Progress([], 0, [], map[]);
    DirectoriesOpen();
    NothingWritten(plan.entries, plan.nodes);
    var changed := ChmodIn(fs, dest, [], PRIVATE_DIR);
    err := Some(IOError);
    if changed {
      err := MakePlannedDirectories(ctx, fs, dest, plan.nodes);
      if err.None? {
        err, p := ExtractEntries(ctx, meter, lib, fs, dest, plan.entries, plan.nodes, limits);
      }
    }
  }

  /** A failed extraction leaves nothing behind: the deferred cleanup of `Extract`. */
  method CleanUp(fs: FileSystem, dest: Path, ghost before: Tree)
    requires Unwatched(fs, dest) && OpenDirs(Sub(fs.m, dest))
    requires Rooted(before) && CanCreate(before, dest) && Outside(fs.m, dest) == Outside(before, dest)
    modifies fs
    ensures Within(fs, dest)
    ensures fs.m == before || fs.faults > old(fs.faults)
  {
    AbsentBelow(before, dest);
    forall d | d in fs.m && fs.m[d].Dir? && (d == Parent(dest) || dest <= d)
      ensures OwnerWritable(fs.m[d].mode)
    {
      if dest <= d {
        SubOutside(fs.m, dest, d);
      } else {
        OutsideAgrees(fs.m, before, dest, d);
      }
    }
    var removed := RemoveAllAt(fs, dest);
  }

  /** The destination right after it was created. */
  lemma FreshDestination(before: Tree, dest: Path)
    requires Rooted(before) && dest !in before
    ensures Sub(before[dest := Dir(PRIVATE_DIR)], dest) == Directories({[]})
    ensures Outside(before[dest := Dir(PRIVATE_DIR)], dest) == Outside(before, dest) == before
  {
    AbsentBelow(before, dest);
    UpdateInside(before, dest, Dir(PRIVATE_DIR), dest);
    assert dest[|dest|..] == [];
  }

  /** `Extract` from the moment the destination exists. */
  method ExtractInto(
    ctx: Context, meter: Meter, lib: Library, fs: FileSystem, dest: Path, files: seq<Member>, plan: Plan,
    limits: Limits, ghost before: Tree
  ) returns (r: Outcome)
    requires ValidLimits(limits) && NfcKeepsSafe(lib) && PlanFor(lib, files, plan, limits)
    requires Unwatched(fs, dest) && Rooted(before) && CanCreate(before, dest)
    requires fs.m == before[dest := Dir(PRIVATE_DIR)]
    modifies ctx, meter, fs
    ensures old(ctx.done) ==> ctx.done
    ensures meter.total <= old(meter.total) + r.stats.extracted
    ensures !(r.Failed? && r.code == LimitExceeded) ==> meter.total == old(meter.total) + r.stats.extracted
    ensures r.Failed? && r.code == LimitExceeded && limits.maxFileBytes < MAX_INT64 ==>
      Overran(lib, plan.entries, limits, r.stats.extracted)
    ensures Within(fs, dest) && r.stats.extracted <= limits.maxTotalBytes
    ensures r.Extracted? ==>
      ExtractedAs(lib, files, plan.nodes, r, Sub(fs.m, dest), limits) && fs.faults == old(fs.faults)
    ensures r.Failed? ==> fs.m == before || fs.faults > old(fs.faults)
    ensures r.Failed? ==> CodeExplained(ctx, r.code, fs.faults > old(fs.faults))
    ensures r.Failed? ==> Excused(ctx, lib, plan.entries, limits, fs.faults > old(fs.faults))
    ensures r.Failed? ==> r.code in {Canceled, IOError} || BodiesFault(lib, plan.entries, limits, r.code)
  {
    FreshDestination(before, dest);
    AcceptedIsExecutable(lib, files, plan.nodes, limits);
    hide Outside, Sub, Directories, Unwatched, OpenDirs, Executable, Accepted, NodesPlanned, Extractable, Written,
      Rooted, CanCreate, NfcKeepsSafe, ExtractedAs, StatsOf, PlanFor, ProgressOf, Excused, CodeExplained, Sort,
      BodiesFault, Overran;
    var err, p := Populate(ctx, meter, lib, fs, dest, plan, limits);
    if err.Some? {
      CleanUp(fs, dest, before);
      r := Failed(err.value, StatsOf(files, plan, p));
    } else {
      r := Extracted(Sort(PathAtMost, p.files), StatsOf(files, plan, p).(files := |p.files|));
      Assembled(lib, files, plan, limits, p);
    }
  }

  function StatsOf(files: seq<Member>, plan: Plan, p: Progress): (s: Stats)
    ensures s.extracted == p.extracted
  {
    Stats(|files|, 0, |DirNodes(plan.nodes)|, plan.declared, p.extracted, p.rejected, p.sources)
  }

  lemma Assembled(lib: Library, files: seq<Member>, plan: Plan, limits: Limits, p: Progress)
    requires PlanFor(lib, files, plan, limits) && Extractable(lib, plan.entries, limits)
    requires p == ProgressOf(lib, plan.entries)
    ensures ExtractedAs(lib, files, plan.nodes,
      Extracted(Sort(PathAtMost, p.files), StatsOf(files, plan, p).(files := |p.files|)),
                        Written(plan.nodes, plan.entries), limits)
  {
    SortElements(PathAtMost, p.files);
    hide Accepted, Extractable, NodesPlanned, Written, Sort, TotalDeclared, EntriesOf;
  }

  /** `Extract` up to the creation of the destination. */
  method Prepare(ctx: Context, lib: Library, fs: FileSystem, zip: Path, dest: Path, limits: Limits)
    returns (err: Option<Code>, files: seq<Member>, plan: Plan)
    requires Unwatched(fs, dest)
    modifies ctx, fs
    ensures old(ctx.done) ==> ctx.done
    ensures Unwatched(fs, dest) && fs.intact == old(fs.intact) && fs.faults >= old(fs.faults)
    ensures err.None? ==> ValidLimits(limits) && Opens(lib, old(fs.m), zip, limits.maxEntries)
    ensures err.None? ==> files == MembersAt(lib, old(fs.m), zip) && PlanFor(lib, files, plan, limits)
    ensures err.None? ==>
      CanCreate(old(fs.m), dest) && fs.m == old(fs.m)[dest := Dir(PRIVATE_DIR)] && fs.faults == old(fs.faults)
    ensures err.Some? ==> fs.m == old(fs.m)
    ensures err.Some? ==> (err.value == Canceled ==> ctx.done) && (err.value == InvalidLimits <==> !ValidLimits(limits))
    ensures err.Some? && err.value !in {Canceled, IOError, InvalidLimits} ==>
      if zip !in old(fs.m) || !old(fs.m)[zip].File? then err.value == Invalid
      else
        || (err.value == Invalid && fs.faults > old(fs.faults))
        || FileFault(lib, old(fs.m)[zip].data, limits, err.value)
    ensures err == Some(IOError) ==> fs.faults > old(fs.faults) || !CanCreate(old(fs.m), dest)
    ensures err.Some? ==>
      || ctx.done || fs.faults > old(fs.faults) || !ValidLimits(limits) || !CanCreate(old(fs.m), dest)
      || Refusable(lib, old(fs.m), zip, limits)
  {
    hide Accepted, NodesPlanned, CodeExplained, Extractable, PlanFault, OpenFault;
    files, plan := [], Plan([], map[], 0);
    var valid := CheckLimits(limits);
    if !valid {
      return Some(InvalidLimits), files, plan;
    }
    err := ContextError(ctx);
    if err.None? {
      var reader := OpenReader(lib, fs, zip, limits.maxEntries);
      if reader.Err? {
        err := Some(reader.error);
      } else {
        files := reader.value;
        var planned := Preflight(ctx, lib, files, limits);
        if planned.Err? {
          err := Some(planned.error);
        } else {
          plan := planned.value;
          err := CreateDestination(fs, dest);
        }
      }
    }
  }

  /** `destinationAbsent` and `os.Mkdir` */
  method CreateDestination(fs: FileSystem, dest: Path) returns (err: Option<Code>)
    requires Unwatched(fs, dest)
    modifies fs
    ensures Unwatched(fs, dest) && fs.intact == old(fs.intact) && fs.faults >= old(fs.faults)
    ensures err.None? ==>
      CanCreate(old(fs.m), dest) && fs.m == old(fs.m)[dest := Dir(PRIVATE_DIR)] && fs.faults == old(fs.faults)
    ensures err.Some? ==>
      err.value == IOError && fs.m == old(fs.m) && (fs.faults > old(fs.faults) || !CanCreate(fs.m, dest))
  {
    ApartBelow(fs.watch, dest, dest);
    var presence := fs.Lstat(dest);
    var made := false;
    if presence == Missing {
      made := fs.Mkdir(dest, PRIVATE_DIR);
    }
    err := if made then None else Some(IOError);
  }

  /**
   `Extract`. On success the destination holds exactly the accepted members, each
   with the announced checksum. On failure the file system is as it was before,
   unless the operating system failed as well. In both cases no more bytes have been
   charged than the limit allows, and no fewer than have reached a file or a digest.
   An I/O error means an operating-system fault or a destination that was not free:
   the plan itself never asks for the impossible.
   */
  method Extract(ctx: Context, meter: Meter, lib: Library, fs: FileSystem, zip: Path, dest: Path, limits: Limits)
    returns (r: Outcome, ghost nodes: map<Path, NodeInfo>)
    requires NfcKeepsSafe(lib) && Unwatched(fs, dest)
    modifies ctx, meter, fs
    ensures old(ctx.done) ==> ctx.done
    ensures meter.total <= old(meter.total) + r.stats.extracted
    ensures !(r.Failed? && r.code == LimitExceeded) ==> meter.total == old(meter.total) + r.stats.extracted
    ensures r.Failed? && r.code == LimitExceeded ==>
      && zip in old(fs.m) && old(fs.m)[zip].File?
      && LimitCause(lib, old(fs.m)[zip].data, limits, r.stats.extracted, meter.total - old(meter.total))
    ensures Within(fs, dest)
    ensures r.stats.extracted <= Max(0, limits.maxTotalBytes)
    ensures r.Extracted? ==>
      ValidLimits(limits) && CanCreate(old(fs.m), dest) && Opens(lib, old(fs.m), zip, limits.maxEntries)
    ensures r.Extracted? ==> ExtractedAs(lib, MembersAt(lib, old(fs.m), zip), nodes, r, Sub(fs.m, dest), limits)
    ensures r.Extracted? ==> fs.faults == old(fs.faults)
    ensures r.Failed? ==> fs.m == old(fs.m) || (fs.faults > old(fs.faults) && dest !in old(fs.m))
    ensures r.Failed? ==> (r.code == Canceled ==> ctx.done) && (r.code == InvalidLimits <==> !ValidLimits(limits))
    ensures r.Failed? && r.code !in {Canceled, IOError, InvalidLimits} ==>
      if zip !in old(fs.m) || !old(fs.m)[zip].File? then r.code == Invalid
      else
        || (r.code == Invalid && fs.faults > old(fs.faults))
        || ContainerFault(lib, old(fs.m)[zip].data, limits, r.code)
    ensures r.Failed? && r.code == IOError ==> fs.faults > old(fs.faults) || !CanCreate(old(fs.m), dest)
    ensures r.Failed? ==>
      || ctx.done || fs.faults > old(fs.faults) || !ValidLimits(limits) || !CanCreate(old(fs.m), dest)
      || Refusable(lib, old(fs.m), zip, limits)
  {
    if dest !in fs.m {
      FreshDestination(fs.m, dest);
    }
    hide Outside, Sub, ExtractedAs, Accepted, Extractable, NodesPlanned, NfcKeepsSafe, FileFault, BodiesFault, Overran;
    var err, files, plan := Prepare(ctx, lib, fs, zip, dest, limits);
    nodes := plan.nodes;
    if err.Some? {
      r := Failed(err.value, NO_STATS.(entries := |files|, declared := plan.declared));
    } else {
      r := ExtractInto(ctx, meter, lib, fs, dest, files, plan, limits, old(fs.m));
    }
  }
}
