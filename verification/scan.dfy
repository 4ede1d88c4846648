/** A whole scan, from an empty staging directory to publication or cleanup: `Scan` of internal/app/scan.go. */
module Scans {
  import opened Basics
  import opened Text
  import opened PosixPath
  import opened Streams
  import opened FileSystems
  import opened Confined
  import opened Sealing
  import opened Publishing
  import opened StagingArea
  import opened ZipNames
  import opened Extraction
  import opened Layout
  import opened Placement
  import opened Records
  import opened Accounts
  import opened Scanning
  import opened Engines

  // ----- The summary -----

  datatype Summary = Summary(uploaded: nat, discovered: nat, approved: nat, rejected: nat, approvedBytes: nat)

  datatype BatchOutcome = NoneApproved | AllApproved | Partial

  function ApprovedOnes(files: seq<Record>): seq<Record> {
    if files == [] then []
    else ApprovedOnes(files[..|files| - 1]) + if files[|files| - 1].decision.Approved? then [files[|files| - 1]] else []
  }

  function Sizes(files: seq<Record>): nat {
    if files == [] then 0 else Sizes(files[..|files| - 1]) + files[|files| - 1].size
  }

  function SummaryOf(files: seq<Record>): Summary {
    var approved := ApprovedOnes(files);
    Summary(CountUploads(files), |files|, |approved|, CountRejected(files), Sizes(approved))
  }

  function CountRejected(files: seq<Record>): nat {
    if files == [] then 0
    else CountRejected(files[..|files| - 1]) + if files[|files| - 1].decision.Rejected? then 1 else 0
  }

  function OutcomeOf(s: Summary): BatchOutcome {
    if s.approved == 0 then NoneApproved else if s.rejected == 0 then AllApproved else Partial
  }

  lemma SummarySnoc(front: seq<Record>, file: Record)
    ensures var s := SummaryOf(front);
      SummaryOf(front + [file]) == Summary(
        s.uploaded + if file.origin.Upload? then 1 else 0, s.discovered + 1,
        s.approved + if file.decision.Approved? then 1 else 0, s.rejected + if file.decision.Rejected? then 1 else 0,
        s.approvedBytes + if file.decision.Approved? then file.size else 0)
  {
    var files, approved := front + [file], ApprovedOnes(front);
    assert files[..|files| - 1] == front && files[|files| - 1] == file;
    assert (approved + [file])[..|approved|] == approved;
    assert approved + [] == approved;
  }

  /** `summarize` */
  method Summarize(files: seq<Record>) returns (s: Summary, outcome: BatchOutcome)
    ensures s == SummaryOf(files) && outcome == OutcomeOf(s)
  {
    s := Summary(0, |files|, 0, 0, 0);
    for i := 0 to |files|
      invariant s == SummaryOf(files[..i]).(discovered := |files|)
    {
      var file := files[i];
      assert files[..i + 1] == files[..i] + [file];
      SummarySnoc(files[..i], file);
      if file.origin == Upload {
        s := s.(uploaded := s.uploaded + 1);
      }
      if file.decision == Approved {
        s := s.(approved := s.approved + 1, approvedBytes := s.approvedBytes + file.size);
      } else {
        s := s.(rejected := s.rejected + 1);
      }
    }
    assert files[..|files|] == files;
    outcome := OutcomeOf(s);
  }

  /** The accounts balance. */
  lemma {:induction false} SummaryBalances(files: seq<Record>)
    ensures SummaryOf(files).approved + SummaryOf(files).rejected == SummaryOf(files).discovered == |files|
    ensures SummaryOf(files).uploaded <= |files|
  {
    if files != [] {
      SummaryBalances(files[..|files| - 1]);
    }
  }

  lemma {:induction false} NoneCounted(files: seq<Record>)
    ensures ApprovedOnes(files) == [] <==> forall r :: r in files ==> r.decision.Rejected?
    ensures CountRejected(files) == 0 <==> forall r :: r in files ==> r.decision.Approved?
  {
    if files != [] {
      var front, last := files[..|files| - 1], files[|files| - 1];
      assert files == front + [last];
      assert forall r :: r in files <==> r in front || r == last;
      NoneCounted(front);
    }
  }

  /** What the outcome says about the records. */
  lemma OutcomeMeans(files: seq<Record>)
    ensures var outcome := OutcomeOf(SummaryOf(files));
      && (outcome == NoneApproved <==> forall r :: r in files ==> r.decision.Rejected?)
      && (outcome == AllApproved <==> files != [] && forall r :: r in files ==> r.decision.Approved?)
  {
    NoneCounted(files);
    if files != [] {
      assert files[0] in files;
    }
  }

  // ----- The published tree -----

  lemma SealedBelow(t: Tree, name: string, fileMode: Mode, dirMode: Mode)
    ensures Sub(Sealed(t, fileMode, dirMode), [name]) == Sealed(Sub(t, [name]), fileMode, dirMode)
  {
    hide Sub;
    forall k
      ensures k in Sub(Sealed(t, fileMode, dirMode), [name]) <==> k in Sub(t, [name])
      ensures k in Sub(t, [name]) ==>
        Sub(Sealed(t, fileMode, dirMode), [name])[k] == Sealed(Sub(t, [name]), fileMode, dirMode)[k]
    {
    }
  }

  lemma StoredBeside(t: Tree, name: string, other: string, v: Node)
    requires name != other
    ensures Sub(t[[other] := v], [name]) == Sub(t, [name])
  {
    hide Sub;
    forall k
      ensures k in Sub(t[[other] := v], [name]) <==> k in Sub(t, [name])
      ensures k in Sub(t, [name]) ==> Sub(t[[other] := v], [name])[k] == Sub(t, [name])[k]
    {
      assert ([name] + k)[0] == name;
    }
  }

  /** Sealing changes modes, not what the records are about. */
  lemma AgreeSealed(files: seq<Record>, bytes: seq<Bytes>, t: Tree, fileMode: Mode, dirMode: Mode)
    requires |bytes| == |files| && Agree(files, bytes, t)
    ensures Agree(files, bytes, Sealed(t, fileMode, dirMode))
  {
    var u := Sealed(t, fileMode, dirMode);
    forall k | k in u && k != []
      ensures exists i {:trigger files[i]} :: 0 <= i < |files| && Covers(files[i], k, u[k])
    {
      var i := Accounted(files, t, k);
      assert Covers(files[i], k, u[k]);
    }
    assert OutputsThere(files, bytes, u);
  }

  /** A tidy staging directory is ready for its manifest, and complete with it. */
  lemma TidyReady(t: Tree, v: Node)
    requires Tidy(t, {})
    ensures [MANIFEST] !in t && [MANIFEST_TMP] !in t && CanHold(t, [])
    ensures [APPROVED] in t && t[[APPROVED]].Dir? && v.File? ==> Listing(t[[MANIFEST] := v])
  {
    ApprovedIsNotManifest();
    ManifestNames();
    hide APPROVED, MANIFEST, MANIFEST_TMP;
    assert [MANIFEST][0] == MANIFEST && [MANIFEST_TMP][0] == MANIFEST_TMP && [APPROVED][0] == APPROVED;
  }

  /** The manifest and everything it speaks for. */
  ghost predicate ResultIs(s: Tree, staged: Tree, data: Bytes, fileMode: Mode, dirMode: Mode) {
    && Listing(s) && AllModes(s, fileMode, dirMode) && s[[MANIFEST]] == File(fileMode, data)
    && Sub(s, [APPROVED]) == Sealed(Sub(staged, [APPROVED]), fileMode, dirMode)
  }

  lemma SealedResult(staged: Tree, data: Bytes, fileMode: Mode, dirMode: Mode)
    requires Listing(staged[[MANIFEST] := File(PRIVATE_FILE, data)])
    ensures ResultIs(Sealed(staged[[MANIFEST] := File(PRIVATE_FILE, data)], fileMode, dirMode), staged, data, fileMode,
      dirMode)
  {
    var full := staged[[MANIFEST] := File(PRIVATE_FILE, data)];
    ApprovedIsNotManifest();
    SealedComplete(full, fileMode, dirMode);
    SealedBelow(full, APPROVED, fileMode, dirMode);
    StoredBeside(staged, APPROVED, MANIFEST, File(PRIVATE_FILE, data));
  }

  /** An onlooker who is content to see this result at the published path. */
  ghost predicate Awaits(fs: FileSystem, staged: Tree, data: Bytes, fileMode: Mode, dirMode: Mode) {
    forall t: Tree {:trigger fs.calm(t)} :: ResultIs(Sub(t, fs.watch), staged, data, fileMode, dirMode) ==> fs.calm(t)
  }

  /** It is this result that the sealed staging directory will be. */
  lemma AwaitsSealed(fs: FileSystem, staged: Tree, data: Bytes, fileMode: Mode, dirMode: Mode)
    requires Awaits(fs, staged, data, fileMode, dirMode)
    requires Listing(staged[[MANIFEST] := File(PRIVATE_FILE, data)])
    ensures Accepts(fs, Sealed(staged[[MANIFEST] := File(PRIVATE_FILE, data)], fileMode, dirMode))
  {
    hide ResultIs, Sealed, Sub;
    SealedResult(staged, data, fileMode, dirMode);
  }

  /** The end of `Scan`: manifest and publication. */
  method PublishResult(
    ctx: Context, staging: Staging, data: Bytes, fileMode: Mode, dirMode: Mode
  ) returns (exit: Option<Exit>)
    requires staging.Open()
    requires Awaits(staging.fs, Sub(staging.fs.m, staging.path), data, FileBits(fileMode), DirBits(dirMode))
    requires Saved(Sub(staging.fs.m, staging.Area()), staging.Area(), staging.fs.disk.flushed)
    modifies ctx, staging, staging.fs, staging.fs.disk
    ensures old(ctx.done) ==> ctx.done
    ensures exit.None? ==> OnDisk(staging.fs.m, staging.final, staging.fs.disk.flushed)
    ensures staging.fs.Valid() && staging.fs.faults >= old(staging.fs.faults)
    ensures staging.fs.intact == old(staging.fs.intact)
    ensures staging.path == old(staging.path) || staging.path == staging.final
    ensures exit.None? ==> staging.done && staging.path == staging.final
    ensures staging.path == staging.final ==>
      && Outside(staging.fs.m, staging.final) == Outside(old(staging.fs.m), old(staging.path))
      && ResultIs(Sub(staging.fs.m, staging.final), Sub(old(staging.fs.m), old(staging.path)), data, FileBits(fileMode),
        DirBits(dirMode))
    ensures staging.path != staging.final ==>
      staging.Pending() && Outside(staging.fs.m, staging.path) == Outside(old(staging.fs.m), staging.path)
    ensures staging.path != staging.final ==>
      Remains(Sub(old(staging.fs.m), staging.Area()), Sub(staging.fs.m, staging.Area()))
    ensures exit.Some? ==>
      !staging.done && (staging.path == staging.final ==> staging.fs.faults > old(staging.fs.faults))
    ensures exit.Some? ==> exit.value == FilesystemExit || (exit.value == CanceledExit && ctx.done)
    ensures exit == Some(FilesystemExit) ==>
      staging.fs.faults > old(staging.fs.faults) || !Tidy(Sub(old(staging.fs.m), old(staging.path)), {})
  {
    hide Sub, Outside, Tidy, Listing, AllModes, Sealed, ResultIs, Unwatched, OpenDirs, CanCreate, Awaits, Accepts,
      Remains, Saved, Linked;
    ghost var staged := Sub(staging.fs.m, staging.path);
    OpenApart(staging);
    RemainsItself(Sub(staging.fs.m, staging.Area()));
    exit := None;
    var canceled := ctx.Err();
    if !canceled {
      canceled := ctx.Err();
    }
    if canceled {
      exit := Some(CanceledExit);
    } else {
      exit := WriteAndPublish(ctx, staging, data, fileMode, dirMode);
    }
  }

  lemma OpenApart(staging: Staging)
    requires staging.Open()
    ensures staging.path != staging.final && staging.fs.Valid()
    ensures [APPROVED] in Sub(staging.fs.m, staging.path) && Sub(staging.fs.m, staging.path)[[APPROVED]].Dir?
  {
    hide Sub, OpenDirs, CanCreate;
    SubNested(staging.fs.m, staging.path, [APPROVED]);
    assert [APPROVED] + [] == [APPROVED];
  }

  lemma RemainsItself(t: Tree)
    ensures Remains(t, t)
  {
  }

  method WriteAndPublish(
    ctx: Context, staging: Staging, data: Bytes, fileMode: Mode, dirMode: Mode
  ) returns (exit: Option<Exit>)
    requires staging.Open()
    requires Awaits(staging.fs, Sub(staging.fs.m, staging.path), data, FileBits(fileMode), DirBits(dirMode))
    requires Saved(Sub(staging.fs.m, staging.Area()), staging.Area(), staging.fs.disk.flushed)
    modifies ctx, staging, staging.fs, staging.fs.disk
    ensures old(ctx.done) ==> ctx.done
    ensures exit.None? ==> OnDisk(staging.fs.m, staging.final, staging.fs.disk.flushed)
    ensures staging.fs.Valid() && staging.fs.faults >= old(staging.fs.faults)
    ensures staging.fs.intact == old(staging.fs.intact)
    ensures staging.path == old(staging.path) || staging.path == staging.final
    ensures exit.None? ==> staging.done && staging.path == staging.final
    ensures staging.path == staging.final ==>
      && Outside(staging.fs.m, staging.final) == Outside(old(staging.fs.m), old(staging.path))
      && ResultIs(Sub(staging.fs.m, staging.final), Sub(old(staging.fs.m), old(staging.path)), data, FileBits(fileMode),
        DirBits(dirMode))
    ensures staging.path != staging.final ==>
      staging.Pending() && Outside(staging.fs.m, staging.path) == Outside(old(staging.fs.m), staging.path)
    ensures staging.path != staging.final ==>
      Remains(Sub(old(staging.fs.m), staging.Area()), Sub(staging.fs.m, staging.Area()))
    ensures exit.Some? ==>
      !staging.done && (staging.path == staging.final ==> staging.fs.faults > old(staging.fs.faults))
    ensures exit.Some? ==> exit.value == FilesystemExit || (exit.value == CanceledExit && ctx.done)
    ensures exit == Some(FilesystemExit) ==>
      staging.fs.faults > old(staging.fs.faults) || !Tidy(Sub(old(staging.fs.m), old(staging.path)), {})
  {
    hide Sub, Outside, Tidy, Listing, AllModes, Sealed, ResultIs, Unwatched, OpenDirs, CanCreate, Awaits, Accepts,
      Remains, Saved, Linked;
    ghost var staged := Sub(staging.fs.m, staging.path);
    OpenApart(staging);
    if Tidy(staged, {}) {
      TidyReady(staged, File(PRIVATE_FILE, data));
    }
    exit := Some(FilesystemExit);
    ghost var flushed := staging.fs.disk.flushed;
    var wrote := staging.WriteManifest(data);
    SavedLater(Sub(staging.fs.m, staging.Area()), staging.Area(), flushed, staging.fs.disk.flushed);
    RemainsItself(Sub(staging.fs.m, staging.Area()));
    OpenApart(staging);
    if wrote {
      if Listing(staged[[MANIFEST] := File(PRIVATE_FILE, data)]) {
        SealedResult(staged, data, FileBits(fileMode), DirBits(dirMode));
        AwaitsSealed(staging.fs, staged, data, FileBits(fileMode), DirBits(dirMode));
        WholeSaved(staging.fs.m, staging.path, staging.fs.disk.flushed);
      }
      var canceled := ctx.Err();
      if canceled {
        exit := Some(CanceledExit);
      } else {
        ghost var complete := Sub(staging.fs.m, staging.path);
        SubNested(staging.fs.m, staging.path, [APPROVED]);
        var ok := staging.PublishContext(ctx, fileMode, dirMode);
        SubNested(staging.fs.m, staging.path, [APPROVED]);
        if staging.path != staging.final {
          RemainsBelow(complete, Sub(staging.fs.m, staging.path), [APPROVED]);
        }
        if ok {
          exit := None;
        } else {
          canceled := ctx.Err();
          exit := Some(if canceled then CanceledExit else FilesystemExit);
        }
      }
    }
  }

  // ----- The run -----

  /** Turning records and their summary into the bytes of the manifest. */
  type Marshal = (seq<Record>, Summary, BatchOutcome) -> Bytes

  function Manifest(marshal: Marshal, files: seq<Record>, s: Summary, outcome: BatchOutcome): Bytes {
    marshal(files, s, outcome)
  }

  /**
   What a published result is: one record for each upload of the batch and for each
   member of each expanded one, every record sincere, each upload under its number and
   name, the approved tree in agreement with the records, the manifest made from exactly
   these records, every mode set.
   */
  ghost predicate Delivered(
    lib: Library, cfg: Config, marshal: Marshal, batch: seq<InputFile>, files: seq<Record>, bytes: seq<Bytes>,
    log: Journal, s: Tree
  ) {
    && Ledger(lib, cfg, log, files, bytes) && Agree(files, bytes, Sub(s, [APPROVED]))
    && Listing(s) && AllModes(s, FileBits(cfg.fileMode), DirBits(cfg.dirMode))
    && s[[MANIFEST]] == File(FileBits(cfg.fileMode),
      Manifest(marshal, files, SummaryOf(files), OutcomeOf(SummaryOf(files))))
    && |files| <= cfg.maxDiscovered && Decided(lib, UploadSubjects(batch), files, bytes)
    && CountUploads(files) == |batch| && AllTitled(lib, files, |batch|)
  }

  /** The modes that a configuration may name let nobody execute a file. */
  lemma ConfiguredModes(cfg: Config)
    requires ValidConfig(cfg)
    ensures NoExecution(cfg.fileMode)
  {
  }

  /** So every entry of a result has the permissions that are configured. */
  lemma DeliveredPermitted(
    lib: Library, cfg: Config, marshal: Marshal, batch: seq<InputFile>, files: seq<Record>, bytes: seq<Bytes>,
    log: Journal, s: Tree
  )
    requires Delivered(lib, cfg, marshal, batch, files, bytes, log, s) && ValidConfig(cfg)
    ensures Permitted(s, cfg.fileMode, cfg.dirMode)
  {
    ConfiguredModes(cfg);
    hide Ledger, Agree, Decided, AllTitled, FileBits, DirBits, SummaryOf, Listing, Permitted, NoExecution, ValidConfig,
      UploadSubjects, CountUploads;
    AllPermitted(s, cfg.fileMode, cfg.dirMode);
  }

  /** Some such result, whatever the records. */
  ghost predicate Result(lib: Library, cfg: Config, marshal: Marshal, batch: seq<InputFile>, s: Tree) {
    exists files, bytes, log :: Delivered(lib, cfg, marshal, batch, files, bytes, log, s)
  }

  /**
   An onlooker at the published path who is content to see nothing there, or a
   result of this batch that is complete to the last byte and bit; and with
   nothing else.
   */
  ghost predicate Onlooker(fs: FileSystem, lib: Library, cfg: Config, marshal: Marshal, batch: seq<InputFile>) {
    forall t: Tree {:trigger fs.calm(t)} ::
      fs.calm(t) <==> Absent(t, fs.watch) || Result(lib, cfg, marshal, batch, Sub(t, fs.watch))
  }

  /** What has been staged is what that onlooker awaits. */
  lemma OnlookerAwaits(
    fs: FileSystem, lib: Library, cfg: Config, marshal: Marshal, batch: seq<InputFile>, files: seq<Record>,
    bytes: seq<Bytes>,
    log: Journal, staged: Tree, data: Bytes
  )
    requires Onlooker(fs, lib, cfg, marshal, batch)
    requires Deliverable(lib, cfg, marshal, batch, files, bytes, log, staged, data)
    ensures Awaits(fs, staged, data, FileBits(cfg.fileMode), DirBits(cfg.dirMode))
  {
    hide Sub, Absent, Deliverable, ResultIs, FileBits, DirBits, Delivered;
    forall t: Tree | ResultIs(Sub(t, fs.watch), staged, data, FileBits(cfg.fileMode), DirBits(cfg.dirMode))
      ensures Result(lib, cfg, marshal, batch, Sub(t, fs.watch))
    {
      ResultDelivered(lib, cfg, marshal, batch, files, bytes, log, staged, data, Sub(t, fs.watch));
    }
  }

  /** It does not put up with a published directory that can be written to. */
  lemma OnlookerExacting(fs: FileSystem, lib: Library, cfg: Config, marshal: Marshal, batch: seq<InputFile>)
    requires Onlooker(fs, lib, cfg, marshal, batch)
    ensures Exacting(fs, DirBits(cfg.dirMode))
  {
    hide Ledger, Agree, Decided, DirBits, FileBits, Listing, AllTitled;
    forall t: Tree | fs.calm(t) && fs.watch in t && t[fs.watch].Dir?
      ensures t[fs.watch].mode == DirBits(cfg.dirMode)
    {
      assert fs.watch + [] == fs.watch;
      assert [] in Sub(t, fs.watch) && Sub(t, fs.watch)[[]] == t[fs.watch];
    }
  }

  /** Published as it was staged, it is delivered. */
  lemma ResultDelivered(
    lib: Library, cfg: Config, marshal: Marshal, batch: seq<InputFile>, files: seq<Record>, bytes: seq<Bytes>,
    log: Journal,
    staged: Tree, data: Bytes, s: Tree
  )
    requires Deliverable(lib, cfg, marshal, batch, files, bytes, log, staged, data)
    requires ResultIs(s, staged, data, FileBits(cfg.fileMode), DirBits(cfg.dirMode))
    ensures Delivered(lib, cfg, marshal, batch, files, bytes, log, s)
  {
    hide Agree, Sub, Sealed, AllModes, Listing, AllTitled;
    assert |bytes| == |files|;
    hide Ledger;
    AgreeSealed(files, bytes, Sub(staged, [APPROVED]), FileBits(cfg.fileMode), DirBits(cfg.dirMode));
  }

  /** Each exit code of a run has a cause outside the program, and it has happened in this run. */
  ghost predicate Explained(exit: Exit, cfg: Config, log: Journal, canceled: bool, faulted: bool, changed: bool) {
    match exit
    case InputExit => faulted || changed
    case FilesystemExit => faulted
    case CanceledExit => canceled || RanOut(cfg, log)
    case DependencyExit => EngineFailed(cfg, log)
    case InternalExit => false
  }

  /** A fault in the cleanup does not take a cause away. */
  lemma ExplainedLater(
    exit: Exit, cfg: Config, log: Journal, canceled: bool, faulted: bool, worse: bool, changed: bool
  )
    requires Explained(exit, cfg, log, canceled, faulted, changed) && (faulted ==> worse)
    ensures Explained(exit, cfg, log, canceled, worse, changed)
  {
  }

  lemma GoingOpen(scanner: Scanner, names: set<string>)
    requires scanner.Going(names)
    ensures scanner.staging.Open() && scanner.staging.fs == scanner.fs
    ensures scanner.fs.faults == scanner.base ==> Tidy(Sub(scanner.fs.m, scanner.staging.path), names)
    ensures |scanner.files| == |scanner.bytes| && scanner.inputFiles + scanner.archiveFiles <= scanner.cfg.maxDiscovered
    ensures Agree(scanner.files, scanner.bytes, Sub(Sub(scanner.fs.m, scanner.staging.path), [APPROVED]))
  {
    assert Look(true);
    SubNested(scanner.fs.m, scanner.staging.path, [APPROVED]);
  }

  lemma SanePending(scanner: Scanner)
    requires scanner.Sane()
    ensures scanner.staging.Pending() && scanner.staging.fs == scanner.fs && scanner.fs.Valid()
    ensures scanner.base <= scanner.fs.faults
    ensures scanner.staging.path != scanner.staging.final
    ensures scanner.meter.total <= scanner.extracted <= scanner.cfg.maxExtractedTotal
    ensures scanner.Counted()
    ensures Traced(Sub(scanner.fs.m, scanner.staging.Area()), scanner.client.log)
  {
    assert Look(true);
  }

  /** The files of a delivered result hold what the daemon has cleared. */
  lemma DeliveredTraced(
    lib: Library, cfg: Config, marshal: Marshal, batch: seq<InputFile>, files: seq<Record>, bytes: seq<Bytes>,
    log: Journal, m: Tree, final: Path
  )
    requires Delivered(lib, cfg, marshal, batch, files, bytes, log, Sub(m, final))
    ensures Traced(Sub(m, final + [APPROVED]), log)
  {
    hide Sub, Decided, UploadSubjects, CountUploads, Listing, AllModes, FileBits, DirBits, SummaryOf, AllTitled;
    SubNested(m, final, [APPROVED]);
    assert Agree(files, bytes, Sub(m, final + [APPROVED]));
    hide Delivered;
    AgreeTraced(lib, cfg, log, files, bytes, Sub(m, final + [APPROVED]));
  }

  /** The end of the run, once all uploads have been dealt with. */
  method Conclude(ctx: Context, scanner: Scanner, data: Bytes) returns (exit: Option<Exit>)
    requires scanner.Going({}) && scanner.staging.fs == scanner.fs
    requires Awaits(scanner.fs, Sub(scanner.fs.m, scanner.staging.path), data,
                    FileBits(scanner.cfg.fileMode), DirBits(scanner.cfg.dirMode))
    modifies ctx, scanner.staging, scanner.fs, scanner.fs.disk
    ensures exit.None? ==> OnDisk(scanner.fs.m, scanner.staging.final, scanner.fs.disk.flushed)
    ensures scanner.fs.Valid() && scanner.fs.faults >= old(scanner.fs.faults)
    ensures scanner.fs.intact == old(scanner.fs.intact)
    ensures scanner.staging.path == old(scanner.staging.path) || scanner.staging.path == scanner.staging.final
    ensures exit.None? ==> scanner.staging.done && scanner.staging.path == scanner.staging.final
    ensures scanner.staging.path == scanner.staging.final ==>
      Outside(scanner.fs.m, scanner.staging.final) == Outside(old(scanner.fs.m), old(scanner.staging.path))
    ensures scanner.staging.path == scanner.staging.final ==>
      ResultIs(Sub(scanner.fs.m, scanner.staging.final), Sub(old(scanner.fs.m), old(scanner.staging.path)), data,
               FileBits(scanner.cfg.fileMode), DirBits(scanner.cfg.dirMode))
    ensures scanner.staging.path != scanner.staging.final ==>
      scanner.staging.Pending() &&
        Outside(scanner.fs.m, scanner.staging.path) == Outside(old(scanner.fs.m), scanner.staging.path)
    ensures scanner.staging.path != scanner.staging.final ==>
      Remains(Sub(old(scanner.fs.m), scanner.staging.Area()), Sub(scanner.fs.m, scanner.staging.Area()))
    ensures exit.Some? ==>
      !scanner.staging.done && (scanner.staging.path == scanner.staging.final ==> scanner.fs.faults > scanner.base)
    ensures exit.Some? ==>
      Explained(exit.value, scanner.cfg, scanner.client.log, ctx.done, scanner.fs.faults > scanner.base, false)
  {
    hide Sub, Outside, Tidy, Ledger, Agree, Listing, AllModes, ResultIs, Delivered, Unwatched, OpenDirs, CanCreate,
      Scanner.Going, TopsBelow, CountUploads, FileBits, DirBits, Awaits, Remains, Saved, OnDisk;
    GoingOpen(scanner, {});
    SanePendingGoing(scanner);
    scanner.GoingBooks({});
    exit := PublishResult(ctx, scanner.staging, data, scanner.cfg.fileMode, scanner.cfg.dirMode);
  }

  /** What has been staged when all uploads have been dealt with. */
  ghost predicate Deliverable(
    lib: Library, cfg: Config, marshal: Marshal, batch: seq<InputFile>, files: seq<Record>, bytes: seq<Bytes>,
    log: Journal,
    staged: Tree, data: Bytes
  ) {
    && Ledger(lib, cfg, log, files, bytes) && Agree(files, bytes, Sub(staged, [APPROVED]))
    && data == Manifest(marshal, files, SummaryOf(files), OutcomeOf(SummaryOf(files)))
    && |files| <= cfg.maxDiscovered && Decided(lib, UploadSubjects(batch), files, bytes)
    && CountUploads(files) == |batch| && AllTitled(lib, files, |batch|)
  }

  lemma GoingDeliverable(scanner: Scanner, marshal: Marshal, batch: seq<InputFile>, data: Bytes)
    requires scanner.Going({}) && scanner.Arrived(scanner.inputFiles) && |batch| == scanner.inputFiles
    requires Decided(scanner.lib, UploadSubjects(batch), scanner.files, scanner.bytes)
    requires data == Manifest(marshal, scanner.files, SummaryOf(scanner.files), OutcomeOf(SummaryOf(scanner.files)))
    ensures Deliverable(scanner.lib, scanner.cfg, marshal, batch, scanner.files, scanner.bytes, scanner.client.log,
                        Sub(scanner.fs.m, scanner.staging.path), data)
  {
    hide Sub, Agree, Ledger, Scanner.Going, SummaryOf, OutcomeOf, Decided, AllTitled;
    GoingOpen(scanner, {});
    SanePendingGoing(scanner);
  }

  lemma SanePendingGoing(scanner: Scanner)
    requires scanner.Going({})
    ensures scanner.staging.Pending() && scanner.base <= scanner.fs.faults && scanner.fs.Valid()
    ensures scanner.staging.path != scanner.staging.final
    ensures Ledger(scanner.lib, scanner.cfg, scanner.client.log, scanner.files, scanner.bytes)
  {
    assert Look(true);
  }

  /** Everything between the creation of the staging directory and the deferred cleanup. */
  method Run(ctx: Context, scanner: Scanner, batch: seq<InputFile>, marshal: Marshal)
    returns (exit: Option<Exit>)
    requires scanner.Going({}) && scanner.Arrived(0) && |batch| == scanner.inputFiles
    requires scanner.staging.fs == scanner.fs
    requires forall file :: file in batch ==> Hashed(scanner.lib, file) && !(scanner.staging.path <= file.path)
    requires Onlooker(scanner.fs, scanner.lib, scanner.cfg, marshal, batch)
    requires scanner.files == [] && scanner.bytes == []
    modifies ctx, scanner, scanner.staging, scanner.fs, scanner.fs.disk, scanner.client, scanner.meter
    ensures exit.None? ==> OnDisk(scanner.fs.m, scanner.staging.final, scanner.fs.disk.flushed)
    ensures scanner.fs.Valid() && scanner.fs.faults >= old(scanner.fs.faults)
    ensures scanner.fs.intact == old(scanner.fs.intact)
    ensures scanner.staging.path == old(scanner.staging.path) || scanner.staging.path == scanner.staging.final
    ensures exit.None? ==> scanner.staging.done && scanner.staging.path == scanner.staging.final
    ensures scanner.staging.path == scanner.staging.final ==>
      Outside(scanner.fs.m, scanner.staging.final) == Outside(old(scanner.fs.m), old(scanner.staging.path))
    ensures scanner.staging.path == scanner.staging.final ==>
      Delivered(scanner.lib, scanner.cfg, marshal, batch, scanner.files, scanner.bytes, scanner.client.log,
                Sub(scanner.fs.m, scanner.staging.final))
    ensures scanner.staging.path != scanner.staging.final ==>
      scanner.staging.Pending() &&
        Outside(scanner.fs.m, scanner.staging.path) == Outside(old(scanner.fs.m), scanner.staging.path)
    ensures Traced(Sub(scanner.fs.m, scanner.staging.Area()), scanner.client.log)
    ensures exit.Some? ==>
      !scanner.staging.done && (scanner.staging.path == scanner.staging.final ==> scanner.fs.faults > scanner.base)
    ensures exit.Some? ==>
      Explained(exit.value, scanner.cfg, scanner.client.log, ctx.done, scanner.fs.faults > scanner.base,
                                     SomeChanged(scanner.lib, old(scanner.fs.m), batch))
    ensures scanner.meter.total <= scanner.extracted <= scanner.cfg.maxExtractedTotal
    ensures Truthful(scanner.client.log, scanner.inputFiles, scanner.cfg.maxExtractedTotal - scanner.extracted,
                     scanner.fs.faults > scanner.base)
  {
    hide Sub, Outside, Ledger, Agree, Delivered, Unwatched, OpenDirs, CanCreate, Scanner.Going, Scanner.Sane,
      SomeChanged, Scanner.Arrived, Deliverable, ResultIs, FileBits, DirBits, Awaits, Onlooker, Decided, UploadSubjects,
      Remains, Traced, OnDisk;
    exit := scanner.ScanUploads(ctx, batch);
    SanePending(scanner);
    if exit.None? {
      var summary, outcome := Summarize(scanner.files);
      var data := Manifest(marshal, scanner.files, summary, outcome);
      GoingDeliverable(scanner, marshal, batch, data);
      ghost var staged, files, bytes, log := Sub(scanner.fs.m, scanner.staging.path), scanner.files, scanner.bytes,
        scanner.client.log;
      OnlookerAwaits(scanner.fs, scanner.lib, scanner.cfg, marshal, batch, files, bytes, log, staged, data);
      SanePendingGoing(scanner);
      ghost var approved := Sub(scanner.fs.m, scanner.staging.Area());
      exit := Conclude(ctx, scanner, data);
      if scanner.staging.path == scanner.staging.final {
        ResultDelivered(scanner.lib, scanner.cfg, marshal, batch, files, bytes, log, staged, data,
          Sub(scanner.fs.m, scanner.staging.final));
        DeliveredTraced(scanner.lib, scanner.cfg, marshal, batch, files, bytes, log, scanner.fs.m,
          scanner.staging.final);
      } else {
        TracedRemains(approved, Sub(scanner.fs.m, scanner.staging.Area()), log);
      }
    }
  }

  // ----- Scan -----

  lemma EmptyStart(scanner: Scanner)
    requires scanner.staging.Open() && scanner.staging.fs == scanner.fs && scanner.staging.lib == scanner.lib
    requires ValidConfig(scanner.cfg) && NfcKeepsSafe(scanner.lib) && scanner.base == scanner.fs.faults
    requires Sub(scanner.fs.m, scanner.staging.path) == EmptyArea()
    requires scanner.files == [] && scanner.bytes == [] && scanner.archiveFiles == 0 && scanner.extracted == 0
    requires scanner.meter.total == 0
    requires scanner.nextID == 0 && scanner.client.log == [Started(scanner.inputFiles)]
    requires scanner.inputFiles <= scanner.cfg.maxDiscovered
    ensures scanner.Going({}) && scanner.Arrived(0)
  {
    hide Sub, EmptyArea, Tidy, CanCreate, OpenDirs, Unwatched, NfcKeepsSafe, ValidConfig, Ledger, Agree, Traced,
      Scanner.Going, Scanner.Sane;
    EmptyAreaOpen(scanner.fs.m, scanner.staging.path);
    EmptyTidy();
    EmptyBooks(scanner.lib, scanner.cfg, scanner.client.log);
    assert scanner.OutputSaved();
    assert scanner.Counted();
    assert scanner.Standing();
    hide Scanner.Standing;
    scanner.UnderwayGoing({});
    assert scanner.Arrived(0);
  }

  lemma EmptyBooks(lib: Library, cfg: Config, log: Journal)
    ensures Ledger(lib, cfg, log, [], []) && Agree([], [], map[[] := Dir(PRIVATE_DIR)])
    ensures Traced(map[[] := Dir(PRIVATE_DIR)], log)
  {
  }

  lemma EmptyTidy()
    ensures Tidy(EmptyArea(), {})
  {
    WritablePrivateDir();
  }

  /** What a scan leaves behind, for the reader of its contract. */
  datatype Trace = Trace(
    files: seq<Record>, bytes: seq<Bytes>, log: Journal, extracted: nat, renamed: bool, shown: Tree, cleanupFaults: nat
  )

  /** What `New` needs: the name free, and room for a longer one beside it. */
  ghost predicate CanStart(m: Tree, final: Path)
    requires final != []
  {
    CanCreate(m, final) && ByteLen(Last(final)) + 16 <= MAX_COMPONENT && !Crowded(m, final)
  }

  /** The inputs lie outside the staging directory and are what they were before it was created. */
  lemma InputsElsewhere(lib: Library, before: Tree, m: Tree, path: Path, final: Path, batch: seq<InputFile>)
    requires path != [] && final != [] && Parent(path) == Parent(final) && Outside(m, path) == before
    requires forall file :: file in batch ==> Hashed(lib, file) && !(Parent(final) <= file.path)
    ensures forall file :: file in batch ==> Hashed(lib, file) && !(path <= file.path)
    ensures SomeChanged(lib, m, batch) ==> SomeChanged(lib, before, batch)
  {
    forall file | file in batch
      ensures !(path <= file.path) && (Unchanged(lib, m, file) <==> Unchanged(lib, before, file))
    {
      if path <= file.path {
        PrefixTransitive(Parent(path), path, file.path);
      }
    }
  }

  /** The bits of a directory mode that forbid writing survive the mask, so it is not the private mode. */
  lemma PublishedDirsDiffer(cfg: Config)
    requires ValidConfig(cfg)
    ensures DirBits(cfg.dirMode) != PRIVATE_DIR
  {
  }

  /**
   At most one directory is left, beside the result or in its place, and its approved
   files hold nothing but the beginnings of what the daemon has cleared.
   */
  ghost predicate Leftover(before: Tree, m: Tree, final: Path, log: Journal) {
    m == before || exists p :: Beside(before, m, p, final) && Traced(Sub(m, p + [APPROVED]), log)
  }

  lemma LeftoverTraced(before: Tree, m: Tree, n: Tree, p: Path, final: Path, log: Journal)
    requires Beside(before, n, p, final) && Traced(Sub(m, p + [APPROVED]), log)
    requires Remains(Sub(m, p), Sub(n, p))
    ensures Leftover(before, n, final, log)
  {
    hide Sub, Traced, Remains;
    SubNested(m, p, [APPROVED]);
    SubNested(n, p, [APPROVED]);
    RemainsBelow(Sub(m, p), Sub(n, p), [APPROVED]);
    TracedRemains(Sub(m, p + [APPROVED]), Sub(n, p + [APPROVED]), log);
  }

  lemma EmptyLeftoverTraced(before: Tree, m: Tree, final: Path, log: Journal)
    requires EmptyLeftover(before, m, final)
    ensures Leftover(before, m, final, log)
  {
    if m != before {
      var p :| Beside(before, m, p, final) && NoFiles(Sub(m, p));
      SubNested(m, p, [APPROVED]);
      assert Traced(Sub(m, p + [APPROVED]), log);
    }
  }

  /** The deferred `Abort`, after a run that has failed. */
  method CleanUpRun(staging: Staging, cfg: Config, ghost before: Tree, ghost log: Journal)
    returns (ghost cleanupFaults: nat)
    requires !staging.done && staging.fs.Valid() && staging.path != [] && staging.final != []
    requires Parent(staging.path) == Parent(staging.final)
    requires CanCreate(before, staging.final) && Outside(staging.fs.m, staging.path) == before
    requires staging.final == staging.fs.watch
    requires staging.path != staging.final ==> Unwatched(staging.fs, staging.path)
    requires staging.path == staging.final ==> staging.path in staging.fs.m && staging.fs.m[staging.path].Dir?
    requires Exacting(staging.fs, DirBits(cfg.dirMode)) && ValidConfig(cfg)
    requires staging.path !in before && Traced(Sub(staging.fs.m, staging.Area()), log)
    modifies staging.fs
    ensures staging.fs.Valid() && staging.fs.faults == old(staging.fs.faults) + cleanupFaults
    ensures cleanupFaults == 0 ==> staging.fs.m == before
    ensures Leftover(before, staging.fs.m, staging.final, log)
    ensures staging.path != staging.final ==> staging.fs.intact == old(staging.fs.intact)
    ensures staging.path == staging.final && cleanupFaults == 0 ==> !staging.fs.intact
  {
    ghost var faults := staging.fs.faults;
    PublishedDirsDiffer(cfg);
    ParentOutside(staging.fs.m, before, staging.path, staging.final);
    hide Outside, Sub, Unwatched, CanCreate, Exacting, DirBits, ValidConfig, Leftover;
    ghost var m := staging.fs.m;
    staging.Abort(DirBits(cfg.dirMode));
    cleanupFaults := staging.fs.faults - faults;
    LeftoverTraced(before, m, staging.fs.m, staging.path, staging.final, log);
  }

  lemma ParentOutside(m: Tree, before: Tree, path: Path, final: Path)
    requires path != [] && final != [] && Parent(path) == Parent(final) && Outside(m, path) == before
    requires CanCreate(before, final)
    ensures Parent(path) in m && OwnerWritable(m[Parent(path)].mode)
  {
    assert Parent(path) in before;
  }

  lemma PendingFacts(staging: Staging)
    requires staging.Pending()
    ensures staging.fs.Valid() && !staging.done && staging.path != [] && Unwatched(staging.fs, staging.path)
  {
  }

  lemma OpenFacts(staging: Staging)
    requires staging.Open()
    ensures staging.fs.Valid() && !staging.done && staging.path != [] && staging.final != []
    ensures staging.final == staging.fs.watch
    ensures Parent(staging.path) == Parent(staging.final) && Apart(staging.final, staging.path)
    ensures CanCreate(staging.fs.m, staging.final)
  {
  }

  lemma DeliveredThere(
    lib: Library, cfg: Config, marshal: Marshal, batch: seq<InputFile>, files: seq<Record>, bytes: seq<Bytes>,
    log: Journal, m: Tree, final: Path
  )
    requires Delivered(lib, cfg, marshal, batch, files, bytes, log, Sub(m, final))
    ensures final in m && m[final].Dir?
  {
    PathPresent(m, final);
  }

  lemma FreeBefore(before: Tree, m: Tree, path: Path, final: Path)
    requires Outside(m, path) == before && CanCreate(m, final) && path != [] && final != []
    requires Parent(path) == Parent(final) && Apart(final, path)
    ensures CanCreate(before, final) && final !in before
  {
    assert !(path <= Parent(final));
  }

  /** The scanner of a run, and the first entry of the journal. */
  method Launch(staging: Staging, cfg: Config, client: Client, meter: Meter, uploads: nat) returns (scanner: Scanner)
    requires staging.Open() && Sub(staging.fs.m, staging.path) == EmptyArea() && meter.total == 0 && client.log == []
    requires ValidConfig(cfg) && NfcKeepsSafe(staging.lib) && uploads <= cfg.maxDiscovered
    modifies client
    ensures fresh(scanner) && scanner.cfg == cfg && scanner.lib == staging.lib && scanner.fs == staging.fs
    ensures scanner.staging == staging && scanner.client == client && scanner.meter == meter
    ensures scanner.inputFiles == uploads && scanner.base == staging.fs.faults
    ensures scanner.files == [] && scanner.bytes == [] && scanner.Going({}) && scanner.Arrived(0)
  {
    hide Sub, EmptyArea, OpenDirs, CanCreate, Unwatched, ValidConfig, NfcKeepsSafe, Scanner.Going, Scanner.Arrived;
    client.Note(Started(uploads));
    scanner := new Scanner(cfg, staging.lib, staging, client, meter, uploads);
    EmptyStart(scanner);
  }

  /** `Scan` once the staging directory exists. */
  method ScanIn(
    ctx: Context, staging: Staging, cfg: Config, client: Client, meter: Meter, batch: seq<InputFile>,
    marshal: Marshal, ghost before: Tree
  ) returns (exit: Option<Exit>, ghost t: Trace)
    requires staging.Open() && Sub(staging.fs.m, staging.path) == EmptyArea()
    requires Outside(staging.fs.m, staging.path) == before && staging.path !in before
    requires ValidConfig(cfg) && NfcKeepsSafe(staging.lib) && Onlooker(staging.fs, staging.lib, cfg, marshal, batch)
    requires forall file :: file in batch ==> Hashed(staging.lib, file) && !(staging.path <= file.path)
    requires |batch| <= cfg.maxDiscovered && CanCreate(before, staging.final) && meter.total == 0
    requires client.log == []
    modifies ctx, staging, staging.fs, staging.fs.disk, client, meter
    ensures exit.None? ==> OnDisk(staging.fs.m, staging.final, staging.fs.disk.flushed)
    ensures t.log == client.log
    ensures exit.None? ==> Outside(staging.fs.m, staging.final) == before && staging.fs.intact == old(staging.fs.intact)
    ensures exit.None? ==> t.renamed
    ensures exit.None? ==>
      Delivered(staging.lib, cfg, marshal, batch, t.files, t.bytes, t.log, Sub(staging.fs.m, staging.final))
    ensures exit.Some? && t.cleanupFaults == 0 ==> staging.fs.m == before
    ensures exit.Some? ==> Leftover(before, staging.fs.m, staging.final, client.log)
    ensures exit.Some? && !t.renamed ==> staging.fs.intact == old(staging.fs.intact)
    ensures exit.Some? && t.renamed ==> staging.fs.faults > old(staging.fs.faults) + t.cleanupFaults
    ensures exit.Some? && t.renamed && t.cleanupFaults == 0 ==> !staging.fs.intact
    ensures t.renamed ==> Delivered(staging.lib, cfg, marshal, batch, t.files, t.bytes, t.log, t.shown)
    ensures old(staging.fs.faults) + t.cleanupFaults <= staging.fs.faults
    ensures meter.total <= t.extracted <= cfg.maxExtractedTotal
    ensures Truthful(client.log, |batch|, cfg.maxExtractedTotal - t.extracted,
      staging.fs.faults > old(staging.fs.faults))
    ensures exit.Some? ==> Explained(exit.value, cfg, client.log, ctx.done, staging.fs.faults > old(staging.fs.faults),
                                     SomeChanged(staging.lib, old(staging.fs.m), batch))
  {
    hide *;
    OpenFacts(staging);
    var scanner := Launch(staging, cfg, client, meter, |batch|);
    OnlookerExacting(staging.fs, staging.lib, cfg, marshal, batch);
    exit := Run(ctx, scanner, batch, marshal);
    ghost var renamed := staging.path == staging.final;
    if renamed {
      DeliveredThere(staging.lib, cfg, marshal, batch, scanner.files, scanner.bytes, client.log, staging.fs.m,
        staging.final);
    }
    t := Trace(scanner.files, scanner.bytes, client.log, scanner.extracted, renamed, Sub(staging.fs.m, staging.final),
      0);
    if exit.Some? {
      ghost var faulted := staging.fs.faults > scanner.base;
      CreateNeedsParent(before, staging.final);
      if !renamed {
        PendingFacts(staging);
      }
      ghost var cleanupFaults := CleanUpRun(staging, cfg, before, client.log);
      ghost var left := cfg.maxExtractedTotal - scanner.extracted;
      TruthfulLater(client.log, |batch|, left, left, faulted, staging.fs.faults > scanner.base);
      ExplainedLater(exit.value, cfg, client.log, ctx.done, faulted, staging.fs.faults > scanner.base,
        SomeChanged(staging.lib, old(staging.fs.m), batch));
      t := t.(cleanupFaults := cleanupFaults);
    }
  }

  /**
   `Scan`. A run that succeeds has published a complete result that agrees with its
   manifest. A run that fails, for whatever reason, leaves the file system as it found
   it, unless removing what it has made fails as well; then it leaves one directory and
   in it only what the daemon has cleared. The onlooker at the published
   path sees nothing or a complete result at every moment, with exactly one exception:
   a run that fails after the rename takes the result back piece by piece. The client
   is new (`checkDependencies` makes it), so its log holds the exchanges of this run.
   */
  method Scan(
    ctx: Context, fs: FileSystem, lib: Library, cfg: Config, client: Client, meter: Meter, final: Path,
    batch: seq<InputFile>, marshal: Marshal
  ) returns (exit: Option<Exit>, ghost t: Trace)
    requires fs.Valid() && final == fs.watch && final != [] && Normal(Last(final))
    requires ValidConfig(cfg) && NfcKeepsSafe(lib) && Onlooker(fs, lib, cfg, marshal, batch)
    requires forall file :: file in batch ==> Hashed(lib, file) && !(Parent(final) <= file.path)
    requires client.log == [] && meter.total == 0
    modifies ctx, fs, fs.disk, client, meter
    ensures t.log == client.log
    ensures exit.None? ==> final !in old(fs.m) && Outside(fs.m, final) == old(fs.m) && fs.intact == old(fs.intact)
    ensures exit.None? ==> t.renamed && Delivered(lib, cfg, marshal, batch, t.files, t.bytes, t.log, Sub(fs.m, final))
    ensures exit.None? ==> OnDisk(fs.m, final, fs.disk.flushed)
    ensures t.renamed ==> Permitted(t.shown, cfg.fileMode, cfg.dirMode)
    ensures exit.None? ==> Permitted(Sub(fs.m, final), cfg.fileMode, cfg.dirMode)
    ensures exit.Some? && t.cleanupFaults == 0 ==> fs.m == old(fs.m)
    ensures exit.Some? ==> Leftover(old(fs.m), fs.m, final, client.log)
    ensures exit.Some? && !t.renamed ==> fs.intact == old(fs.intact)
    ensures exit.Some? && t.renamed ==>
      fs.faults > old(fs.faults) + t.cleanupFaults && (t.cleanupFaults == 0 ==> !fs.intact)
    ensures t.renamed ==> Delivered(lib, cfg, marshal, batch, t.files, t.bytes, t.log, t.shown)
    ensures old(fs.faults) + t.cleanupFaults <= fs.faults
    ensures meter.total <= t.extracted <= cfg.maxExtractedTotal
    ensures exit.None? || client.log != [] ==>
      Truthful(client.log, |batch|, cfg.maxExtractedTotal - t.extracted, fs.faults > old(fs.faults))
    ensures exit.Some? ==>
      Explained(exit.value, cfg, client.log, ctx.done, fs.faults > old(fs.faults) || !CanStart(old(fs.m), final),
                                     |batch| > cfg.maxDiscovered || SomeChanged(lib, old(fs.m), batch))
  {
    hide Sub, Outside, EmptyArea, Delivered, Unwatched, OpenDirs, CanCreate, Onlooker, FileBits, DirBits, ValidConfig,
      NfcKeepsSafe, SomeChanged, Hashed, Crowded, Permitted, OnDisk;
    t := Trace([], [], [], 0, false, map[], 0);
    if |batch| > cfg.maxDiscovered {
      return Some(InputExit), t;
    }
    var made := NewStaging(fs, lib, final);
    if made.None? {
      t := t.(cleanupFaults := if fs.m == old(fs.m) then 0 else 1);
      EmptyLeftoverTraced(old(fs.m), fs.m, final, client.log);
      return Some(FilesystemExit), t;
    }
    OpenFacts(made.value);
    FreeBefore(old(fs.m), fs.m, made.value.path, final);
    InputsElsewhere(lib, old(fs.m), fs.m, made.value.path, final, batch);
    exit, t := ScanIn(ctx, made.value, cfg, client, meter, batch, marshal, old(fs.m));
    if t.renamed {
      DeliveredPermitted(lib, cfg, marshal, batch, t.files, t.bytes, t.log, t.shown);
    }
    if exit.None? {
      DeliveredPermitted(lib, cfg, marshal, batch, t.files, t.bytes, t.log, Sub(fs.m, final));
    }
  }
}
