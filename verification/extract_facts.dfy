/** What follows from a successful extraction, for the caller and for the file system. */
module ExtractionFacts {
  import opened Basics
  import opened Text
  import opened Sorting
  import opened PosixPath
  import opened BoundedCopy
  import opened FileSystems
  import opened ZipNames
  import opened PathPlan
  import opened Preflights
  import opened Extraction

  // ----- The list of written files -----

  lemma {:induction false} RegularMembers(es: seq<Entry>, p: Path)
    ensures p in RegularNames(es) <==> p in WrittenFiles(es)
    ensures p in SourceNames(es) <==> p in WrittenFiles(es)
  {
    if es != [] {
      RegularMembers(es[..|es| - 1], p);
    }
  }

  lemma {:induction false} RegularDistinct(es: seq<Entry>)
    requires forall i, j :: 0 <= i < j < |es| ==> es[i].name != es[j].name
    ensures forall i, j :: 0 <= i < j < |RegularNames(es)| ==> RegularNames(es)[i] != RegularNames(es)[j]
  {
    if es != [] {
      var front, e := es[..|es| - 1], es[|es| - 1];
      RegularDistinct(front);
      var names := RegularNames(front);
      forall i | 0 <= i < |names|
        ensures names[i] != e.name
      {
        assert names[i] in names;
        RegularMembers(front, names[i]);
        WrittenKeys(front, names[i]);
        var j :| 0 <= j < |front| && IsWritten(front[j]) && front[j].name == names[i];
        assert es[j].name == names[i];
      }
    }
  }

  /** The entry behind a written file. */
  lemma {:induction false} WrittenEntry(es: seq<Entry>, p: Path) returns (j: nat)
    requires p in WrittenFiles(es)
    ensures j < |es| && IsWritten(es[j]) && es[j].name == p
    ensures WrittenFiles(es)[p] == File(PRIVATE_FILE, es[j].member.body.data)
    ensures p in SourceNames(es) && SourceNames(es)[p] == es[j].source
  {
    var front, e := es[..|es| - 1], es[|es| - 1];
    if IsWritten(e) && e.name == p {
      j := |es| - 1;
    } else {
      j := WrittenEntry(front, p);
    }
  }

  /** Every member that is not a directory is either written or reported as rejected. */
  lemma {:induction false} FilesAccountedFor(lib: Library, files: seq<Member>)
    ensures |RegularNames(EntriesOf(lib, files))| + |RejectedEntries(lib, EntriesOf(lib, files))| == CountFiles(files)
  {
    if files != [] {
      var front, f := files[..|files| - 1], files[|files| - 1];
      assert files == front + [f];
      EntriesSnoc(lib, front, f);
      var es := EntriesOf(lib, files);
      assert es[..|es| - 1] == EntriesOf(lib, front);
      FilesAccountedFor(lib, front);
    }
  }

  /** A rejected entry is about a member that policy omits, and tells what is in it. */
  ghost predicate EntryAbout(lib: Library, q: RejectedEntry, f: Member) {
    && OmittedAs(f, q.code) && q.source == SourceOf(lib, f)
    && q.size == |f.body.data| && q.sha == lib.sha(f.body.data)
  }

  lemma {:induction false} RejectedFrom(lib: Library, files: seq<Member>, q: RejectedEntry) returns (f: Member)
    requires q in RejectedEntries(lib, EntriesOf(lib, files))
    ensures f in files && EntryAbout(lib, q, f)
  {
    var front, last := files[..|files| - 1], files[|files| - 1];
    assert files == front + [last];
    EntriesSnoc(lib, front, last);
    var es, e := EntriesOf(lib, front), EntryOf(lib, last);
    assert (es + [e])[..|es|] == es && (es + [e])[|es|] == e;
    if q in RejectedEntries(lib, es) {
      f := RejectedFrom(lib, front, q);
    } else {
      f := last;
    }
  }

  lemma RejectedSnoc(lib: Library, es: seq<Entry>, e: Entry)
    ensures forall q :: q in RejectedEntries(lib, es) ==> q in RejectedEntries(lib, es + [e])
    ensures !e.isDir && e.reject.Some? ==>
      RejectedEntry(e.source, e.name, e.reject.value, |e.member.body.data|, lib.sha(e.member.body.data)) in
        RejectedEntries(lib, es + [e])
  {
    assert (es + [e])[..|es|] == es && (es + [e])[|es|] == e;
  }

  /** Conversely, every member that policy omits is reported, */
  lemma {:induction false} OmissionReported(lib: Library, files: seq<Member>, f: Member, code: Code)
    returns (q: RejectedEntry)
    requires f in files && OmittedAs(f, code)
    ensures q in RejectedEntries(lib, EntriesOf(lib, files)) && EntryAbout(lib, q, f) && q.code == code
  {
    hide SourceOf, Nfc, EntriesOf, RejectedEntries;
    var front, last := files[..|files| - 1], files[|files| - 1];
    assert files == front + [last];
    EntriesSnoc(lib, front, last);
    RejectedSnoc(lib, EntriesOf(lib, front), EntryOf(lib, last));
    if f in front {
      q := OmissionReported(lib, front, f, code);
    } else {
      q := RejectedEntry(SourceOf(lib, f), Nfc(lib, SourceOf(lib, f)), code, |f.body.data|, lib.sha(f.body.data));
    }
  }

  /** and every regular one is written. */
  lemma {:induction false} RegularWritten(lib: Library, files: seq<Member>, f: Member)
    requires f in files && f.kind.RegularEntry?
    ensures Nfc(lib, SourceOf(lib, f)) in RegularNames(EntriesOf(lib, files))
  {
    var front, last := files[..|files| - 1], files[|files| - 1];
    assert files == front + [last];
    EntriesSnoc(lib, front, last);
    var es, e := EntriesOf(lib, front), EntryOf(lib, last);
    assert (es + [e])[..|es|] == es && (es + [e])[|es|] == e;
    hide SourceOf, Nfc, EntriesOf;
    if f in front {
      RegularWritten(lib, front, f);
    }
  }

  // ----- What the caller of `Extract` may rely on -----

  /** The paths an extraction returns are safe, and no one is inside another. */
  ghost predicate CleanOutput(files: seq<Path>) {
    && (forall i :: 0 <= i < |files| ==> files[i] != [] && AllSafe(files[i]))
    && (forall i, j :: 0 <= i < |files| && 0 <= j < |files| && i != j ==> !(files[i] <= files[j]))
  }

  /** A written file lies where it should, with the announced checksum, under the name its source normalises to. */
  ghost predicate FaithfulFile(lib: Library, files: seq<Member>, r: Outcome, t: Tree, p: Path)
    requires r.Extracted?
  {
    && p in t && t[p].File?
    && p in r.stats.sourcePaths && Nfc(lib, r.stats.sourcePaths[p]) == p
    && exists f :: f in files && ComesFrom(lib, r.stats.sourcePaths[p], t[p].data, f)
  }

  /** Data extracted from a regular member that was found under a given path. */
  predicate ComesFrom(lib: Library, source: Path, data: Bytes, f: Member) {
    && f.kind.RegularEntry? && NameOf(lib, f).Some?
    && source == SourceOf(lib, f) && data == f.body.data && lib.crc(data) == f.crc
  }

  lemma WrittenFile(
    lib: Library, files: seq<Member>, nodes: map<Path, NodeInfo>, r: Outcome, t: Tree, limits: Limits, p: Path
  )
    requires r.Extracted? && ExtractedAs(lib, files, nodes, r, t, limits) && p in r.files
    ensures FaithfulFile(lib, files, r, t, p)
    ensures p in nodes && !nodes[p].isDir
  {
    hide Sort, SourceOf, Nfc, NameOf, PathsAccepted, NodesPlanned, SafeSyntax, WithinLimits, EmptyDirectory,
      BytesRead, Written, RegularNames, WrittenFiles, SourceNames, ClaimsMade, AllClaims;
    var es := EntriesOf(lib, files);
    SortElements(PathAtMost, RegularNames(es));
    RegularMembers(es, p);
    var j := WrittenEntry(es, p);
    ClaimIsPlanned(lib, files, nodes, j);
    WrittenThere(nodes, es, p);
    var f := files[j];
    assert es[j] in es && f in files && es[j] == EntryOf(lib, f);
    assert MemberAccepted(lib, f, limits);
    assert Sound(lib, es[j].member, limits.maxFileBytes);
    assert ComesFrom(lib, r.stats.sourcePaths[p], t[p].data, f);
  }

  lemma WrittenThere(nodes: map<Path, NodeInfo>, es: seq<Entry>, p: Path)
    requires p in WrittenFiles(es)
    ensures p in Written(nodes, es) && Written(nodes, es)[p] == WrittenFiles(es)[p]
  {
  }

  lemma OutputFile(
    lib: Library, files: seq<Member>, nodes: map<Path, NodeInfo>, r: Outcome, t: Tree, limits: Limits, p: Path
  )
    requires NfcKeepsSafe(lib) && r.Extracted? && ExtractedAs(lib, files, nodes, r, t, limits) && p in r.files
    ensures p in nodes && !nodes[p].isDir && p != [] && AllSafe(p)
  {
    WrittenFile(lib, files, nodes, r, t, limits, p);
    NodeComponents(lib, files, nodes, limits, p);
    PlanIsTree(lib, nodes, ClaimsMade(lib, files));
  }

  lemma OutputDistinct(
    lib: Library, files: seq<Member>, nodes: map<Path, NodeInfo>, r: Outcome, t: Tree, limits: Limits
  )
    requires NfcKeepsSafe(lib) && r.Extracted? && ExtractedAs(lib, files, nodes, r, t, limits)
    ensures PrefixClosed(nodes)
    ensures forall i, j :: 0 <= i < j < |r.files| ==> r.files[i] != r.files[j]
  {
    AcceptedIsExecutable(lib, files, nodes, limits);
    RegularDistinct(EntriesOf(lib, files));
    SortDistinct(PathAtMost, RegularNames(EntriesOf(lib, files)));
  }

  lemma OutputClean(lib: Library, files: seq<Member>, nodes: map<Path, NodeInfo>, r: Outcome, t: Tree, limits: Limits)
    requires NfcKeepsSafe(lib) && r.Extracted? && ExtractedAs(lib, files, nodes, r, t, limits)
    ensures CleanOutput(r.files)
  {
    hide ExtractedAs, AllSafe, NfcKeepsSafe;
    OutputDistinct(lib, files, nodes, r, t, limits);
    forall p | p in r.files
      ensures p in nodes && !nodes[p].isDir && p != [] && AllSafe(p)
    {
      OutputFile(lib, files, nodes, r, t, limits, p);
    }
    forall i, j | 0 <= i < |r.files| && 0 <= j < |r.files| && i != j
      ensures !(r.files[i] <= r.files[j])
    {
      assert r.files[i] in r.files && r.files[j] in r.files;
      LeavesApart(nodes, r.files[i], r.files[j]);
    }
  }

  lemma LeavesApart(nodes: map<Path, NodeInfo>, p: Path, q: Path)
    requires PrefixClosed(nodes) && p in nodes && !nodes[p].isDir && q in nodes && p != q
    ensures !(p <= q)
  {
    assert p <= q ==> q[..|p|] == p && |p| < |q|;
    if 1 <= |p| < |q| {
      AncestorsPlanned(nodes, q, |p|);
    }
  }

  /**
   The main facts about `Extract`: the returned names are strictly sorted, safe and
   leaf paths; each file is faithful, and there is one for every regular member; links and
   other special members are reported as what they are and nothing else is; files and rejections
   together are as many as `Preflight` counted.
   */
  lemma ExtractionFaithful(
    lib: Library, files: seq<Member>, nodes: map<Path, NodeInfo>, r: Outcome, t: Tree, limits: Limits
  )
    requires NfcKeepsSafe(lib) && r.Extracted? && ExtractedAs(lib, files, nodes, r, t, limits)
    ensures forall i, j :: 0 <= i < j < |r.files| ==> PathLess(r.files[i], r.files[j])
    ensures CleanOutput(r.files)
    ensures forall p :: p in r.files ==> FaithfulFile(lib, files, r, t, p)
    ensures forall f :: f in files && f.kind.RegularEntry? ==> Nfc(lib, SourceOf(lib, f)) in r.files
    ensures forall q :: q in r.stats.rejected ==> exists f :: f in files && EntryAbout(lib, q, f)
    ensures forall f, code :: f in files && OmittedAs(f, code) ==>
      exists q :: q in r.stats.rejected && q.code == code && EntryAbout(lib, q, f)
    ensures |r.files| + |r.stats.rejected| == CountFiles(files)
  {
    OutputClean(lib, files, nodes, r, t, limits);
    forall p | p in r.files
      ensures FaithfulFile(lib, files, r, t, p)
    {
      WrittenFile(lib, files, nodes, r, t, limits, p);
    }
    FilesAccountedFor(lib, files);
    SortElements(PathAtMost, RegularNames(EntriesOf(lib, files)));
    hide SourceOf, Nfc, EntryAbout, Sort, RejectedEntries, RegularNames, CleanOutput, FaithfulFile;
    forall f | f in files && f.kind.RegularEntry?
      ensures Nfc(lib, SourceOf(lib, f)) in r.files
    {
      RegularWritten(lib, files, f);
    }
    forall q | q in r.stats.rejected
      ensures exists f :: f in files && EntryAbout(lib, q, f)
    {
      var f := RejectedFrom(lib, files, q);
    }
    forall f, code | f in files && OmittedAs(f, code)
      ensures exists q :: q in r.stats.rejected && q.code == code && EntryAbout(lib, q, f)
    {
      var q := OmissionReported(lib, files, f, code);
    }
    StrictlySorted(r.files, RegularNames(EntriesOf(lib, files)));
  }

  lemma StrictlySorted(r: seq<Path>, names: seq<Path>)
    requires r == Sort(PathAtMost, names) && CleanOutput(r)
    ensures forall i, j :: 0 <= i < j < |r| ==> PathLess(r[i], r[j])
  {
    PathOrder();
    SortSorted(PathAtMost, names);
    forall i, j | 0 <= i < j < |r|
      ensures PathLess(r[i], r[j])
    {
      assert PathAtMost(r[i], r[j]) && !(r[i] <= r[j]);
      LessTotal(Join(r[i]), Join(r[j]));
      SafeNoSlash(r[i]);
      SafeNoSlash(r[j]);
      if Join(r[i]) == Join(r[j]) {
        JoinInjective(r[i], r[j]);
      }
    }
  }

  /** Nobody but the owner may do anything with what an extraction has made. */
  lemma ExtractionPrivate(
    lib: Library, files: seq<Member>, nodes: map<Path, NodeInfo>, r: Outcome, t: Tree, limits: Limits, k: Path
  )
    requires r.Extracted? && ExtractedAs(lib, files, nodes, r, t, limits) && k in t
    ensures t[k].mode & 0x3F == 0 && t[k].mode & 0x180 == 0x180
  {
    hide Accepted, Extractable, NodesPlanned, Sort, EntriesOf;
    WrittenKeys(EntriesOf(lib, files), k);
  }

  // ----- Case-insensitive file systems -----

  /** The name under which a case-insensitive file system files a created path. */
  function FoldPath(lib: Library, k: Path): (r: Path)
    ensures |r| == |k|
  {
    seq(|k|, i requires 0 <= i < |k| => lib.fold(k[i]))
  }

  /** One thing to create. */
  datatype Step = Step(path: Path, isDir: bool)

  /** On a file system that ignores case: the name is free and the directory above exists. */
  ghost predicate StepPossible(lib: Library, done: seq<Step>, s: Step) {
    && (forall d :: d in done ==> FoldPath(lib, d.path) != FoldPath(lib, s.path))
    && s.path != []
    && (|s.path| == 1 || exists d :: d in done && d.isDir && FoldPath(lib, d.path) == FoldPath(lib, Parent(s.path)))
  }

  function Steps(dirs: seq<Path>, names: seq<Path>): seq<Step> {
    Map(p => Step(p, true), dirs) + Map(p => Step(p, false), names)
  }

  lemma FoldTellsApart(lib: Library, files: seq<Member>, nodes: map<Path, NodeInfo>, k: Path, l: Path)
    requires PathsAccepted(lib, ClaimsMade(lib, files)) && NodesPlanned(lib, nodes, files)
    requires k in nodes && l in nodes && FoldPath(lib, k) == FoldPath(lib, l)
    ensures k == l
  {
    var claims := AllClaims(ClaimsMade(lib, files));
    var c :| c in claims && Nfc(lib, c.path) == k;
    var d :| d in claims && Nfc(lib, d.path) == l;
    assert FoldKey(lib, c.path) == FoldPath(lib, k);
    assert FoldKey(lib, d.path) == FoldPath(lib, l);
  }

  /**
   The plan of `Extract` — directories in sorted order, then the files — can be
   carried out step by step even where names that differ only in case are the same.
   */
  lemma FoldedPlanExecutable(
    lib: Library, files: seq<Member>, nodes: map<Path, NodeInfo>, limits: Limits, dirs: seq<Path>, i: nat
  )
    requires NfcKeepsSafe(lib) && Accepted(lib, files, limits) && NodesPlanned(lib, nodes, files)
    requires InCreationOrder(dirs) && forall p :: p in dirs <==> p in DirNodes(nodes)
    requires i < |Steps(dirs, RegularNames(EntriesOf(lib, files)))|
    ensures var steps := Steps(dirs, RegularNames(EntriesOf(lib, files)));
      StepPossible(lib, steps[..i], steps[i])
  {
    var es := EntriesOf(lib, files);
    var names := RegularNames(es);
    var steps := Steps(dirs, names);
    AcceptedIsExecutable(lib, files, nodes, limits);
    RegularDistinct(es);
    forall n | 0 <= n < |names|
      ensures names[n] in nodes && !nodes[names[n]].isDir
    {
      assert names[n] in names;
      RegularMembers(es, names[n]);
      var j := WrittenEntry(es, names[n]);
      ClaimIsPlanned(lib, files, nodes, j);
    }
    StepsDiffer(dirs, names, nodes, i);
    forall d | d in steps[..i]
      ensures FoldPath(lib, d.path) != FoldPath(lib, steps[i].path)
    {
      if FoldPath(lib, d.path) == FoldPath(lib, steps[i].path) {
        FoldTellsApart(lib, files, nodes, d.path, steps[i].path);
      }
    }
    ParentStepDone(dirs, names, nodes, i);
  }

  lemma StepsDiffer(dirs: seq<Path>, names: seq<Path>, nodes: map<Path, NodeInfo>, i: nat)
    requires InCreationOrder(dirs) && (forall p :: p in dirs <==> p in DirNodes(nodes))
    requires forall n :: 0 <= n < |names| ==> names[n] in nodes && !nodes[names[n]].isDir
    requires forall m, n :: 0 <= m < n < |names| ==> names[m] != names[n]
    requires i < |Steps(dirs, names)|
    ensures var steps := Steps(dirs, names);
      forall d :: d in steps[..i] ==> d.path in nodes && d.path != steps[i].path
    ensures Steps(dirs, names)[i].path in nodes
  {
    var steps := Steps(dirs, names);
    assert forall k :: 0 <= k < |dirs| ==> steps[k].path == dirs[k] && dirs[k] in dirs;
    assert forall k :: |dirs| <= k < |steps| ==> steps[k].path == names[k - |dirs|];
    forall k | 0 <= k < i
      ensures steps[k].path in nodes && steps[k].path != steps[i].path
    {
      if i < |dirs| {
        assert dirs[i] !in dirs[..i] && dirs[..i][k] == dirs[k];
      }
    }
  }

  lemma ParentStepDone(dirs: seq<Path>, names: seq<Path>, nodes: map<Path, NodeInfo>, i: nat)
    requires PrefixClosed(nodes) && InCreationOrder(dirs) && (forall p :: p in dirs <==> p in DirNodes(nodes))
    requires i < |Steps(dirs, names)| && Steps(dirs, names)[i].path in nodes
    ensures var steps := Steps(dirs, names);
      steps[i].path != [] && (|steps[i].path| > 1 ==> Step(Parent(steps[i].path), true) in steps[..i])
  {
    var steps := Steps(dirs, names);
    var p := steps[i].path;
    if |p| > 1 {
      var parent := Parent(p);
      assert parent in DirNodes(nodes);
      var k :| 0 <= k < |dirs| && dirs[k] == parent;
      if i < |dirs| {
        assert dirs[i] == p;
        k :| 0 <= k < i && dirs[..i][k] == parent;
      }
      assert steps[..i][k] == Step(parent, true);
    }
  }
}
