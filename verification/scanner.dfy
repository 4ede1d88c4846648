/** The scan of one batch: internal/app/scan.go. */
module Scanning {
  import opened Basics
  import opened Text
  import opened PosixPath
  import opened Decimals
  import opened Streams
  import opened BoundedCopy
  import opened FileSystems
  import opened Confined
  import opened ZipNames
  import opened PathPlan
  import opened Preflights
  import opened Extraction
  import opened ExtractionFacts
  import opened Publishing
  import opened StagingArea
  import opened Names
  import opened Layout
  import opened Placement
  import opened Sorting
  import opened Records
  import opened Accounts
  import opened Engines
  import Clamd

  /** The exit codes a scan can end with once the batch has been loaded. */
  datatype Exit = InputExit | DependencyExit | FilesystemExit | CanceledExit | InternalExit

  /** An archive that is being gone through: its record, and where it is unpacked and goes. */
  datatype Archive = Archive(id: string, attachment: string, source: string, directory: string, work: string)

  function Wrapping(a: Archive): Envelope {
    Envelope(a.id, a.attachment, a.source)
  }

  /** The position of its record, its bytes and tree, and which upload it is. */
  datatype Site = Site(c: nat, z: Bytes, t: Tree, index: nat, total: nat, name: string)

  /** One file of the batch: what was hashed when the batch was loaded, and where it lies. */
  datatype InputFile = InputFile(attachment: string, name: string, path: Path, size: nat, sha: Digest, loaded: Bytes)

  /** The size and digest are those of the file as it was loaded. */
  predicate Hashed(lib: Library, file: InputFile) {
    file.size == |file.loaded| && file.sha == lib.sha(file.loaded)
  }

  /** What the record of an upload is about. */
  function UploadSubject(file: InputFile): Subject {
    Subject(Upload, None, file.attachment, file.name, file.size, file.sha)
  }

  function UploadSubjects(batch: seq<InputFile>): (r: seq<Subject>)
    ensures |r| == |batch|
  {
    Map(file => UploadSubject(file), batch)
  }

  /** The file still has that size and digest. */
  ghost predicate Unchanged(lib: Library, m: Tree, file: InputFile) {
    file.path in m && m[file.path].File? && |m[file.path].data| == file.size && lib.sha(m[file.path].data) == file.sha
  }

  /** Some input is no longer what it was when the batch was loaded. */
  ghost predicate SomeChanged(lib: Library, m: Tree, batch: seq<InputFile>) {
    exists file :: file in batch && !Unchanged(lib, m, file)
  }

  /** The state of the world, as far as the steps of a scan must leave it alone or only add to it. */
  datatype World = World(around: Tree, kept: Tree, faults: nat, intact: bool, log: Journal, done: bool)

  ghost predicate Later(a: World, b: World) {
    && a.around == b.around && a.kept == b.kept && a.faults <= b.faults && a.intact == b.intact
    && a.log <= b.log && (a.done ==> b.done)
  }

  /** What `detectorFailure` makes of an error, if the scan itself has not been canceled. */
  function DetectorVerdict(cfg: Config, err: DetectError): Result<Reason, Exit> {
    match err
    case ZipError(InvalidLimits) => Err(InternalExit)
    case ZipError(code) =>
      if code != Canceled then Ok(FromZip(code))
      else if cfg.detectorStopsBatch then Err(CanceledExit)
      else Ok(TypeDetectorError)
    case TimedOut => if cfg.detectorStopsBatch then Err(CanceledExit) else Ok(TypeDetectorError)
    case TooManyPixels => if cfg.detectorStopsBatch then Err(DependencyExit) else Ok(ImageDimensionsExceeded)
    case DetectorFailed => if cfg.detectorStopsBatch then Err(DependencyExit) else Ok(TypeDetectorError)
  }

  /** What `archiveFailure` makes of the other error codes. */
  function ArchiveVerdict(code: Code): Result<Reason, Exit>
    requires code != Canceled
  {
    match code
    case IOError => Err(FilesystemExit)
    case InvalidLimits => Err(InternalExit)
    case _ => Ok(FromZip(code))
  }

  /** What `scanMalware` makes of the daemon's verdict, or of there being none. */
  function MalwareVerdict(
    cfg: Config, verdict: Option<Clamd.Verdict>, late: bool, canceled: bool
  ): Result<Option<Reason>, Exit> {
    match verdict
    case None =>
      if canceled then Err(CanceledExit)
      else if cfg.malwareStopsBatch then Err(if late then CanceledExit else DependencyExit)
      else Ok(Some(if late then MalwareScanTimeout else MalwareScanError))
    case Some(Clean) => Ok(None)
    case Some(Found(_)) => Ok(Some(MalwareFound))
    case Some(Problem(message)) =>
      if cfg.malwareStopsBatch && !cfg.sizeLimitMessage(message) then Err(DependencyExit)
      else Ok(Some(MalwareScanError))
  }

  /** Mentioned by proofs that look inside the invariants of the scanner. */
  predicate Look(x: bool) {
    true
  }

  class Scanner {
    const cfg: Config
    const lib: Library
    const fs: FileSystem
    const staging: Staging
    const client: Client
    /** What the extractions of this scan have really delivered. */
    const meter: Meter
    const inputFiles: nat
    /** The fault count at the start: as long as it stands, nothing has gone wrong. */
    ghost const base: nat

    var files: seq<Record>
    /** What each record is about. */
    ghost var bytes: seq<Bytes>
    var nextID: nat
    var archiveFiles: nat
    var extracted: nat

    constructor (cfg: Config, lib: Library, staging: Staging, client: Client, meter: Meter, inputFiles: nat)
      ensures this.cfg == cfg && this.lib == lib && this.fs == staging.fs && this.staging == staging
      ensures this.client == client
      ensures this.meter == meter
      ensures this.inputFiles == inputFiles && base == staging.fs.faults
      ensures files == [] && bytes == [] && nextID == 0 && archiveFiles == 0 && extracted == 0
    {
      this.cfg, this.lib, this.fs, this.staging, this.client := cfg, lib, staging.fs, staging, client;
      this.meter := meter;
      this.inputFiles, base := inputFiles, staging.fs.faults;
      files, bytes, nextID, archiveFiles, extracted := [], [], 0, 0, 0;
    }

    // ----- Invariants -----

    /** The staging directory, and the approved directory in it. */
    ghost function Room(): Tree
      reads staging, fs`m
    {
      Sub(fs.m, staging.path)
    }

    ghost function Output(): Tree
      reads staging, fs`m
    {
      Sub(fs.m, staging.Area())
    }

    /** What holds at every moment, whatever has gone wrong. */
    ghost predicate Standing()
      reads this`extracted, this`archiveFiles, staging, fs, client, meter
    {
      && staging.fs == fs && staging.lib == lib && ValidConfig(cfg) && NfcKeepsSafe(lib)
      && staging.Pending() && base <= fs.faults
      && Traced(Output(), client.log)
      && Counted() && inputFiles + archiveFiles <= cfg.maxDiscovered
    }

    /** The budget is kept, and the journal is true. */
    ghost predicate Counted()
      reads this`extracted, meter, client, fs`faults
    {
      && meter.total <= extracted <= cfg.maxExtractedTotal
      && Truthful(client.log, inputFiles, cfg.maxExtractedTotal - extracted, fs.faults > base)
    }

    /** What holds between the steps of a scan that goes on; `names` are the entries in use. */
    ghost predicate Underway(names: set<string>)
      reads this`files, this`bytes, this`extracted, this`archiveFiles, staging, fs, fs.disk, client, meter
    {
      && Standing() && staging.Open() && APPROVED !in names
      && Ledger(lib, cfg, client.log, files, bytes) && Agree(files, bytes, Output())
      && (fs.faults == base ==> Tidy(Room(), names))
      && OutputSaved()
    }

    /** Everything in the approved directory has been forced out to the disk. */
    ghost predicate OutputSaved()
      reads staging, fs`m, fs.disk
    {
      Saved(Output(), staging.Area(), fs.disk.flushed)
    }

    /** The same two, for proofs that only pass them on and need not see inside. */
    ghost predicate Sane()
      reads this`extracted, this`archiveFiles, staging, fs, client, meter
    {
      forall x: bool :: Look(x) ==> Standing()
    }

    ghost predicate Going(names: set<string>)
      reads this`files, this`bytes, this`extracted, this`archiveFiles, staging, fs, fs.disk, client, meter
    {
      forall x: bool :: Look(x) ==> Underway(names)
    }

    /** Each exit code has a cause that has happened, and nothing in the program itself is ever to blame. */
    ghost predicate Blamed(exit: Exit, ctx: Context)
      reads fs, ctx, client
    {
      match exit
      case FilesystemExit => fs.faults > base
      case CanceledExit => ctx.done || RanOut(cfg, client.log)
      case DependencyExit => EngineFailed(cfg, client.log)
      case InputExit => false
      case InternalExit => false
    }

    /** What no step may disturb: the world around the staging directory and the entries in use. */
    ghost function Now(ctx: Context, names: set<string>): World
      reads staging, fs, client, ctx
    {
      World(Outside(fs.m, staging.path), Keep(Room(), names), fs.faults, fs.intact, client.log, ctx.done)
    }

    /** What every step guarantees, whether or not it ends the scan. */
    twostate predicate Since(new exit: Option<Exit>, ctx: Context, new names: set<string>)
      reads this, staging, fs, fs.disk, client, meter, ctx
    {
      && Sane() && Later(old(Now(ctx, names)), Now(ctx, names))
      && (exit.None? ==> Going(names))
      && (exit.Some? ==> Blamed(exit.value, ctx))
    }

    /** Exactly one record has been entered. */
    twostate predicate Entered()
      reads this`files, this`bytes
    {
      |files| == |old(files)| + 1 && old(files) <= files && |bytes| == |old(bytes)| + 1 && old(bytes) <= bytes
    }

    /** It is a rejection, of what `record` is about. */
    twostate predicate Declined(new record: Record)
      reads this`files, this`bytes
    {
      Entered() && !IsOut(files[|old(files)|]) && About(files[|old(files)|]) == About(record)
    }

    lemma GoingFacts(names: set<string>)
      requires Going(names)
      ensures Sane() && fs.Valid() && ValidConfig(cfg) && NfcKeepsSafe(lib) && base <= fs.faults && |bytes| == |files|
      ensures meter.total <= extracted <= cfg.maxExtractedTotal && inputFiles + archiveFiles <= cfg.maxDiscovered
      ensures Counted() && staging.fs == fs
    {
      assert Look(true);
    }

    lemma GoingSane(names: set<string>)
      ensures Going(names) ==> Sane()
    {
      if Going(names) {
        GoingFacts(names);
      }
    }

    lemma GoingBooks(names: set<string>)
      requires Going(names)
      ensures Ledger(lib, cfg, client.log, files, bytes) && Agree(files, bytes, Output())
      ensures Traced(Output(), client.log) && OutputSaved()
    {
      assert Look(true);
    }

    /** As long as nothing is extracted or written into the journal, the counts stay right. */
    twostate lemma StillCounted()
      requires old(Counted()) && client.log == old(client.log) && fs.faults >= old(fs.faults)
      requires extracted == old(extracted) && meter.total == old(meter.total)
      ensures Counted()
    {
    }

    twostate lemma StandingKept()
      requires old(Standing()) && fs.m == old(fs.m) && fs.faults >= old(fs.faults)
      requires staging.done == old(staging.done) && staging.path == old(staging.path)
      requires Counted() && inputFiles + archiveFiles <= cfg.maxDiscovered
      requires Traced(Output(), client.log)
      ensures Standing()
    {
      hide Traced, Sub, Outside, NfcKeepsSafe, ValidConfig, CanCreate, Unwatched, Truthful;
      assert Standing();
    }

    /** As long as the staging directory is left alone, only the books must be kept. */
    twostate lemma StillGoing(names: set<string>)
      requires old(Going(names)) && fs.m == old(fs.m) && fs.faults >= old(fs.faults)
      requires staging.done == old(staging.done) && staging.path == old(staging.path)
      requires fs.disk.flushed == old(fs.disk.flushed)
      requires Counted() && inputFiles + archiveFiles <= cfg.maxDiscovered
      requires Ledger(lib, cfg, client.log, files, bytes) && Agree(files, bytes, Output())
      requires Traced(Output(), client.log)
      ensures Going(names)
    {
      hide Going, Sane, Ledger, Agree, Tidy, Traced, Sub, Outside, Keep, OpenDirs, CanCreate, Unwatched, Counted,
        ValidConfig, NfcKeepsSafe, Saved;
      WasUnderway(names);
      StandingKept();
      hide Standing;
      UnderwayGoing(names);
    }

    twostate lemma NothingDisturbed(ctx: Context, new names: set<string>)
      requires fs.m == old(fs.m) && fs.intact == old(fs.intact) && fs.faults >= old(fs.faults)
      requires old(client.log) <= client.log && (old(ctx.done) ==> ctx.done) && staging.path == old(staging.path)
      ensures Later(old(Now(ctx, names)), Now(ctx, names))
    {
    }

    /** Looking at things, even in vain, keeps a scan going. */
    twostate lemma Looked(ctx: Context, new names: set<string>)
      requires old(Going(names)) && fs.m == old(fs.m) && fs.intact == old(fs.intact) && fs.faults >= old(fs.faults)
      requires client.log == old(client.log) && files == old(files) && bytes == old(bytes)
      requires extracted == old(extracted) && meter.total == old(meter.total) && archiveFiles == old(archiveFiles)
      requires (old(ctx.done) ==> ctx.done) && fs.disk.flushed == old(fs.disk.flushed)
      requires staging.done == old(staging.done) && staging.path == old(staging.path)
      ensures Going(names) && Later(old(Now(ctx, names)), Now(ctx, names))
    {
      assert old(Underway(names)) by {
        assert Look(true);
      }
      StillCounted();
      hide Going, Sane, Ledger, Agree, Traced, Sub, ValidConfig, NfcKeepsSafe, Now, Counted;
      StillGoing(names);
      NothingDisturbed(ctx, names);
    }

    // ----- Records -----

    /** `newFile` */
    method NewFile(parent: Option<string>, attachment: string, source: string, origin: Origin, size: nat, sha: Digest)
      returns (r: Record)
      modifies this`nextID
      ensures nextID == old(nextID) + 1
      ensures r == Record(RecordId(nextID), parent, attachment, source, origin, PlainFile, size, sha, OtherType,
                          Rejected, Omitted, None, None, [])
    {
      nextID := nextID + 1;
      r := Record(RecordId(nextID), parent, attachment, source, origin, PlainFile, size, sha, OtherType,
                  Rejected, Omitted, None, None, []);
    }

    /** `reject` */
    method Reject(record: Record, reason: Reason, ghost b: Bytes, ghost out: Path, ghost names: set<string>)
      requires Going(names) && |bytes| == |files| && Draft(lib, files, bytes, record, b, out)
      requires InSchema(reason) && Reasoned(lib, cfg, client.log, files, bytes, RejectedFor(record, reason), b)
      requires ListedAs(cfg, JudgedPath(lib, record.origin, record.source, out), Some(reason))
      modifies this`files, this`bytes
      ensures Going(names)
      ensures files == old(files) + [RejectedFor(record, reason)] && bytes == old(bytes) + [b] && Declined(record)
    {
      hide Going, Sane, Ledger, Agree, Traced, Draft, Reasoned, ListedAs, JudgedPath, InSchema, Sub, NfcKeepsSafe,
        ValidConfig;
      GoingBooks(names);
      GoingFacts(names);
      RejectionEntered(lib, cfg, client.log, files, bytes, Output(), record, reason, b, out);
      files := files + [RejectedFor(record, reason)];
      bytes := bytes + [b];
      StillGoing(names);
    }

    /** Writing something that has happened into the journal. */
    ghost method Note(ctx: Context, e: Event, names: set<string>)
      requires Going(names)
      requires !e.Started? && (e.Disturbed? ==> fs.faults > base)
      requires e.Allowed? ==> e.left == cfg.maxExtractedTotal - extracted
      requires !e.Lost? && !e.Expired?
      modifies client
      ensures Going(names) && Later(old(Now(ctx, names)), Now(ctx, names))
      ensures client.log == old(client.log) + [e] && e in client.log
    {
      hide Going, Sane, Ledger, Agree, Traced, Sub, ValidConfig, NfcKeepsSafe, Now;
      GoingFacts(names);
      TruthfulSnoc(client.log, e, inputFiles, cfg.maxExtractedTotal - extracted, fs.faults > base);
      client.Note(e);
      LogGrows(ctx, names);
    }

    /** `contextFailure` */
    method ContextFailure(ctx: Context) returns (exit: Option<Exit>)
      modifies ctx
      ensures old(ctx.done) ==> ctx.done
      ensures exit == if ctx.done then Some(CanceledExit) else None
    {
      var canceled := ctx.Err();
      exit := if canceled then Some(CanceledExit) else None;
    }

    // ----- The type detector -----

    /**
     `detect`: the result is the environment's, except that an archive error can only
     be one that `Preflight` returns, or the one about a directory that poses as the
     list of content types.
     */
    method Detect(ctx: Context, src: Path, ghost b: Bytes, ghost names: set<string>)
      returns (d: Detection, err: Option<DetectError>)
      requires Going(names)
      modifies ctx, fs`faults, client
      ensures Going(names) && Later(old(Now(ctx, names)), Now(ctx, names))
      ensures err.None? ==> Examined(b, Ok(d)) in client.log
      ensures err.Some? ==> DetectionFailed(client.log, b, err.value)
      ensures forall code :: err == Some(ZipError(code)) ==> code != IOError && code != InvalidLimits
    {
      hide Going, Sane, Now, NfcKeepsSafe, ValidConfig;
      GoingFacts(names);
      d, err := RunDetector(ctx, src);
      Looked(ctx, names);
      Note(ctx, Examined(b, if err.Some? then Err(err.value) else Ok(d)), names);
    }

    method RunDetector(ctx: Context, src: Path) returns (d: Detection, err: Option<DetectError>)
      requires fs.Valid() && ValidConfig(cfg)
      modifies ctx, fs`faults
      ensures (old(ctx.done) ==> ctx.done) && fs.faults >= old(fs.faults)
      ensures forall code :: err == Some(ZipError(code)) ==> code != IOError && code != InvalidLimits
    {
      var fileCtx := new Context();
      var canceled := ctx.Err();
      var kind: FileType, archiveMime: bool, mismatch: bool, unusual: Option<string> := *, *, *, *;
      d, err := Detection(kind, archiveMime, mismatch, unusual), None;
      if * {
        var checked := PreflightFile(fileCtx, lib, fs, src, LimitsFor(cfg, cfg.maxExtractedTotal));
        if checked.Err? {
          return d, Some(ZipError(checked.error));
        }
      }
      var other: Option<DetectError> := *;
      err := if other.Some? && other.value.ZipError? && other.value.code != Invalid then None else other;
    }

    /** `detectorFailure` */
    method DetectorFailure(
      ctx: Context, record: Record, err: DetectError, ghost b: Bytes, ghost out: Path, ghost names: set<string>
    )
      returns (exit: Option<Exit>)
      requires Going(names) && |bytes| == |files| && Draft(lib, files, bytes, record, b, out)
      requires forall code :: err == ZipError(code) ==> code != IOError && code != InvalidLimits
      requires DetectionFailed(client.log, b, err)
      modifies this`files, this`bytes, ctx
      ensures Since(exit, ctx, names)
      ensures exit.None? ==> Declined(record)
    {
      hide Going, Sane, Now, Draft, NfcKeepsSafe, ValidConfig;
      GoingFacts(names);
      exit := ContextFailure(ctx);
      Looked(ctx, names);
      if exit.None? {
        var verdict := DetectorVerdict(cfg, err);
        if verdict.Ok? {
          Reject(record, verdict.value, b, out, names);
        } else {
          exit := Some(verdict.error);
        }
      }
    }

    /** An upload that is an archive, or a document. */
    predicate IsContainer(record: Record) {
      (record.origin.Upload? && record.detected.ArchiveZip?) || record.detected.Ooxml?
    }

    /** `archiveFailure` */
    method ArchiveFailure(
      ctx: Context, record: Record, code: Code, ghost b: Bytes, ghost out: Path, ghost names: set<string>
    )
      returns (exit: Option<Exit>)
      requires Going(names) && |bytes| == |files| && Draft(lib, files, bytes, record, b, out)
      requires (code == Canceled ==> ctx.done) && (code == IOError ==> fs.faults > base) && code != InvalidLimits
      requires Seen(client.log, b, record.detected) && IsContainer(record)
      requires code !in {Canceled, IOError} ==>
        RefusedWithin(lib, cfg, client.log, b, code) || (code == Invalid && fs.faults > base)
      modifies this`files, this`bytes, ctx, client
      ensures Since(exit, ctx, names) && old(client.log) <= client.log
      ensures exit.None? ==> Declined(record)
    {
      hide Going, Sane, Now, Draft, NfcKeepsSafe, ValidConfig, Seen, RefusedWithin;
      GoingSane(names);
      exit := None;
      if code == Invalid && fs.faults > base {
        ghost var log := client.log;
        Note(ctx, Disturbed, names);
        SeenLater(log, client.log, b, record.detected);
      }
      exit := JudgeFailure(ctx, record, code, b, out, names);
    }

    method JudgeFailure(
      ctx: Context, record: Record, code: Code, ghost b: Bytes, ghost out: Path, ghost names: set<string>
    )
      returns (exit: Option<Exit>)
      requires Going(names) && |bytes| == |files| && Draft(lib, files, bytes, record, b, out)
      requires (code == Canceled ==> ctx.done) && (code == IOError ==> fs.faults > base) && code != InvalidLimits
      requires code !in {Canceled, IOError} ==>
        ContainerRefused(lib, cfg, client.log, files, record.origin, record.detected, b, code)
      modifies this`files, this`bytes, ctx
      ensures Since(exit, ctx, names)
      ensures exit.None? ==> Declined(record)
    {
      hide Going, Sane, Now, Draft, NfcKeepsSafe, ValidConfig, ContainerRefused, JudgedPath;
      GoingFacts(names);
      Looked(ctx, names);
      exit := None;
      if code == Canceled {
        exit := ContextFailure(ctx);
        Looked(ctx, names);
      } else {
        var verdict := ArchiveVerdict(code);
        if verdict.Ok? {
          Reject(record, verdict.value, b, out, names);
        } else {
          exit := Some(verdict.error);
        }
      }
    }

    // ----- Containers -----

    /** `extractionLimits`: what the batch may still unpack. */
    method ExtractionLimits() returns (limits: Option<Limits>)
      requires ValidConfig(cfg)
      ensures limits.Some? <==> extracted < cfg.maxExtractedTotal
      ensures limits.Some? ==>
        limits.value == LimitsFor(cfg, cfg.maxExtractedTotal - extracted) && ValidLimits(limits.value)
    {
      if extracted >= cfg.maxExtractedTotal {
        return None;
      }
      limits := Some(LimitsFor(cfg, cfg.maxExtractedTotal - extracted));
    }

    /** What is known of a container that passed its inspection. */
    ghost predicate Inspected(b: Bytes, limits: Limits, found: nat)
      reads this, client
    {
      && extracted < cfg.maxExtractedTotal && limits == LimitsFor(cfg, cfg.maxExtractedTotal - extracted)
      && ValidLimits(limits) && Allowed(b, cfg.maxExtractedTotal - extracted) in client.log
      && lib.parse(b).Some? && found == CountFiles(lib.parse(b).value)
    }

    /** It stays known as long as nothing is charged to the budget. */
    twostate lemma StillInspected(b: Bytes, new limits: Limits, new found: nat)
      requires extracted == old(extracted) && old(client.log) <= client.log
      ensures old(Inspected(b, limits, found)) ==> Inspected(b, limits, found)
    {
      if old(Inspected(b, limits, found)) {
        StillThere(old(client.log), client.log, Allowed(b, cfg.maxExtractedTotal - extracted));
      }
    }

    /** `Preflight`, of which the scan uses the number of files. */
    method Inspect(ctx: Context, src: Path, limits: Limits, ghost b: Bytes) returns (r: Result<nat, Code>)
      requires fs.Valid() && ValidLimits(limits) && src in fs.m && fs.m[src].File? && fs.m[src].data == b
      modifies ctx, fs`faults
      ensures (old(ctx.done) ==> ctx.done) && fs.faults >= old(fs.faults)
      ensures r.Ok? ==> lib.parse(b).Some? && r.value == CountFiles(lib.parse(b).value)
      ensures r.Err? ==> (r.error == Canceled ==> ctx.done) && r.error != IOError && r.error != InvalidLimits
      ensures r.Err? && r.error != Canceled ==>
        ContainerFault(lib, b, limits, r.error) || (r.error == Invalid && fs.faults > old(fs.faults))
    {
      hide CountFiles, ValidLimits, Accepted, NodesPlanned, FileFault;
      var stats := PreflightFile(ctx, lib, fs, src, limits);
      r := if stats.Ok? then Ok(stats.value.files) else Err(stats.error);
    }

    /** `preflightContainer` */
    method PreflightContainer(
      ctx: Context, src: Path, record: Record, countDiscovered: bool,
      ghost rel: Path, ghost b: Bytes, ghost out: Path, ghost names: set<string>
    ) returns (limits: Limits, found: nat, valid: bool, exit: Option<Exit>)
      requires Going(names) && |bytes| == |files| && Draft(lib, files, bytes, record, b, out)
      requires Stored(Room(), names, rel, b) && src == staging.path + rel
      requires Seen(client.log, b, record.detected)
      requires if countDiscovered then record.detected.ArchiveZip? && record.origin.Upload? else record.detected.Ooxml?
      requires countDiscovered ==> archiveFiles == |files| - CountUploads(files)
      modifies this`files, this`bytes, ctx, fs`faults, client
      ensures Since(exit, ctx, names)
      ensures valid ==> exit.None? && files == old(files) && bytes == old(bytes) && Inspected(b, limits, found)
      ensures valid && countDiscovered ==> inputFiles + archiveFiles + found <= cfg.maxDiscovered
      ensures old(client.log) <= client.log
      ensures !valid && exit.None? ==> Declined(record)
    {
      hide Going, Sane, Now, Draft, NfcKeepsSafe, Stored, ValidConfig, ValidLimits, Sub, Outside, Keep, Seen,
        CountUploads, Inspected;
      ghost var log := client.log;
      GoingFacts(names);
      Note(ctx, Allowed(b, cfg.maxExtractedTotal - extracted), names);
      SeenLater(log, client.log, b, record.detected);
      limits, found, valid, exit := InspectContainer(ctx, src, record, countDiscovered, rel, b, out, names);
    }

    /** The same, once the budget that is left has been noted. */
    method InspectContainer(
      ctx: Context, src: Path, record: Record, countDiscovered: bool,
      ghost rel: Path, ghost b: Bytes, ghost out: Path, ghost names: set<string>
    ) returns (limits: Limits, found: nat, valid: bool, exit: Option<Exit>)
      requires Going(names) && |bytes| == |files| && Draft(lib, files, bytes, record, b, out)
      requires Stored(Room(), names, rel, b) && src == staging.path + rel
      requires Seen(client.log, b, record.detected) && extracted <= cfg.maxExtractedTotal
      requires Allowed(b, cfg.maxExtractedTotal - extracted) in client.log
      requires if countDiscovered then record.detected.ArchiveZip? && record.origin.Upload? else record.detected.Ooxml?
      requires countDiscovered ==> archiveFiles == |files| - CountUploads(files)
      modifies this`files, this`bytes, ctx, fs`faults, client
      ensures Since(exit, ctx, names)
      ensures valid ==> exit.None? && files == old(files) && bytes == old(bytes) && Inspected(b, limits, found)
      ensures valid && countDiscovered ==> inputFiles + archiveFiles + found <= cfg.maxDiscovered
      ensures old(client.log) <= client.log
      ensures !valid && exit.None? ==> Declined(record)
    {
      hide Going, Sane, Now, Draft, NfcKeepsSafe, Stored, ValidConfig, ValidLimits, Accepted, NodesPlanned, CountFiles,
        Sub, Outside, Keep, JudgedPath, Seen, ContainerFault, CountUploads, RefusedWithin, Reasoned, Counted,
        LimitsFor, Truthful, Unwatched, CanCreate;
      GoingFacts(names);
      limits, found, valid, exit := LimitsFor(cfg, 0), 0, false, None;
      var some := ExtractionLimits();
      if some.None? {
        NothingLeft(record, b);
        Reject(record, FromZip(LimitExceeded), b, out, names);
      } else {
        limits := some.value;
        found, valid, exit := InspectWithin(ctx, src, record, countDiscovered, limits, rel, b, out, names);
      }
      GoingSane(names);
    }

    /** The same, once there are limits. */
    method InspectWithin(
      ctx: Context, src: Path, record: Record, countDiscovered: bool, limits: Limits,
      ghost rel: Path, ghost b: Bytes, ghost out: Path, ghost names: set<string>
    ) returns (found: nat, valid: bool, exit: Option<Exit>)
      requires Going(names) && |bytes| == |files| && Draft(lib, files, bytes, record, b, out)
      requires Stored(Room(), names, rel, b) && src == staging.path + rel
      requires if countDiscovered then record.detected.ArchiveZip? && record.origin.Upload? else record.detected.Ooxml?
      requires countDiscovered ==> archiveFiles == |files| - CountUploads(files)
      requires extracted < cfg.maxExtractedTotal && limits == LimitsFor(cfg, cfg.maxExtractedTotal - extracted)
      requires ValidLimits(limits) && Allowed(b, cfg.maxExtractedTotal - extracted) in client.log
      requires Seen(client.log, b, record.detected)
      modifies this`files, this`bytes, ctx, fs`faults, client
      ensures Since(exit, ctx, names)
      ensures valid ==> exit.None? && files == old(files) && bytes == old(bytes) && Inspected(b, limits, found)
      ensures valid && countDiscovered ==> inputFiles + archiveFiles + found <= cfg.maxDiscovered
      ensures old(client.log) <= client.log
      ensures !valid && exit.None? ==> Declined(record)
    {
      hide Going, Sane, Now, Draft, NfcKeepsSafe, Stored, ValidConfig, ValidLimits, Accepted, NodesPlanned, CountFiles,
        Sub, Outside, Keep, JudgedPath, Seen, ContainerFault, CountUploads, RefusedWithin, Reasoned, Counted, LimitsFor;
      StoredThere(rel, b, names);
      GoingFacts(names);
      var stats := Inspect(ctx, src, limits, b);
      Looked(ctx, names);
      if stats.Err? {
        FaultRefuses(b, limits, stats.error);
      }
      valid, exit := JudgeInspection(ctx, record, countDiscovered, stats, b, out, names);
      found := if valid then stats.value else 0;
    }

    /** What follows from the result of an inspection. */
    method JudgeInspection(
      ctx: Context, record: Record, countDiscovered: bool, stats: Result<nat, Code>,
      ghost b: Bytes, ghost out: Path, ghost names: set<string>
    ) returns (valid: bool, exit: Option<Exit>)
      requires Going(names) && |bytes| == |files| && Draft(lib, files, bytes, record, b, out)
      requires Seen(client.log, b, record.detected)
      requires if countDiscovered then record.detected.ArchiveZip? && record.origin.Upload? else record.detected.Ooxml?
      requires countDiscovered ==> archiveFiles == |files| - CountUploads(files)
      requires stats.Ok? ==> lib.parse(b).Some? && stats.value == CountFiles(lib.parse(b).value)
      requires stats.Err? ==>
        && (stats.error == Canceled ==> ctx.done) && stats.error !in {IOError, InvalidLimits}
        && (stats.error != Canceled ==>
              RefusedWithin(lib, cfg, client.log, b, stats.error) || (stats.error == Invalid && fs.faults > base))
      modifies this`files, this`bytes, ctx, client
      ensures Since(exit, ctx, names)
      ensures valid ==>
        exit.None? && files == old(files) && bytes == old(bytes) && stats.Ok? && client.log == old(client.log)
      ensures valid && countDiscovered ==> inputFiles + archiveFiles + stats.value <= cfg.maxDiscovered
      ensures old(client.log) <= client.log
      ensures !valid && exit.None? ==> Declined(record)
    {
      hide Going, Sane, Now, Draft, CountFiles, JudgedPath, Seen, CountUploads, RefusedWithin, Reasoned, Truthful;
      GoingFacts(names);
      Looked(ctx, names);
      valid, exit := false, None;
      if stats.Err? {
        exit := ArchiveFailure(ctx, record, stats.error, b, out, names);
      } else if countDiscovered && stats.value > cfg.maxDiscovered - inputFiles - archiveFiles {
        CrowdedOut(record, b);
        Reject(record, FromZip(LimitExceeded), b, out, names);
      } else {
        valid := true;
      }
    }

    lemma StoredThere(rel: Path, b: Bytes, names: set<string>)
      requires Stored(Room(), names, rel, b)
      ensures var src := staging.path + rel; src in fs.m && fs.m[src].File? && fs.m[src].data == b
    {
      StoredAt(fs.m, staging.path, names, rel, b);
    }

    /** A container is refused for a fault within the budget that is left. */
    lemma FaultRefuses(b: Bytes, limits: Limits, code: Code)
      requires extracted < cfg.maxExtractedTotal && limits == LimitsFor(cfg, cfg.maxExtractedTotal - extracted)
      requires Allowed(b, cfg.maxExtractedTotal - extracted) in client.log
      ensures ContainerFault(lib, b, limits, code) ==> RefusedWithin(lib, cfg, client.log, b, code)
    {
      hide ContainerFault;
    }

    /** A container is refused when nothing is left of the budget. */
    lemma NothingLeft(record: Record, b: Bytes)
      requires extracted == cfg.maxExtractedTotal && Allowed(b, 0) in client.log
      requires Seen(client.log, b, record.detected) && IsContainer(record) && |bytes| == |files|
      ensures Reasoned(lib, cfg, client.log, files, bytes, RejectedFor(record, FromZip(LimitExceeded)), b)
    {
      hide Seen;
    }

    /** An archive is refused when its files would be too many. */
    lemma CrowdedOut(record: Record, b: Bytes)
      requires Counted() && Seen(client.log, b, record.detected) && record.detected.ArchiveZip? && record.origin.Upload?
      requires archiveFiles == |files| - CountUploads(files) && lib.parse(b).Some?
      requires CountFiles(lib.parse(b).value) > cfg.maxDiscovered - inputFiles - archiveFiles
      requires |bytes| == |files|
      ensures Reasoned(lib, cfg, client.log, files, bytes, RejectedFor(record, FromZip(LimitExceeded)), b)
    {
      hide Seen;
      assert Started(inputFiles) in client.log;
    }

    // ----- Malware -----

    /** The scan itself, once the file has been opened. */
    method AskDaemon(ctx: Context, data: Bytes) returns (outcome: Result<Option<Reason>, Exit>)
      requires Counted()
      modifies ctx, client
      ensures Counted()
      ensures (old(ctx.done) ==> ctx.done) && old(client.log) <= client.log
      ensures outcome == Ok(None) ==> Cleared(client.log, data)
      ensures outcome.Ok? && outcome.value.Some? ==> MalwareReason(cfg, client.log, outcome.value.value, data)
      ensures outcome == Err(CanceledExit) ==> ctx.done || (cfg.malwareStopsBatch && Expired(data) in client.log)
      ensures outcome == Err(DependencyExit) ==>
        cfg.malwareStopsBatch && (Lost(data) in client.log || Protested(cfg, client.log, data))
      ensures outcome.Err? ==> outcome.error in {CanceledExit, DependencyExit}
    {
      hide Judged, Silent, Truthful;
      ghost var log := client.log;
      var fileCtx := new Context();
      var verdict := client.Scan(fileCtx, data);
      assert client.log == log + [client.log[|log|]];
      TruthfulSnoc(log, client.log[|log|], inputFiles, cfg.maxExtractedTotal - extracted, fs.faults > base);
      var canceled, late := false, false;
      if verdict.None? {
        canceled := ctx.Err();
        late := fileCtx.Err();
        log := client.log;
        client.Note(if late then Expired(data) else Lost(data));
        TruthfulSnoc(log, if late then Expired(data) else Lost(data), inputFiles, cfg.maxExtractedTotal - extracted,
          fs.faults > base);
      }
      outcome := MalwareVerdict(cfg, verdict, late, canceled);
    }

    /** `scanMalware`: no reason and no exit means that the daemon has cleared exactly these bytes. */
    method ScanMalware(ctx: Context, src: Path, ghost rel: Path, ghost b: Bytes, ghost names: set<string>)
      returns (reason: Option<Reason>, exit: Option<Exit>)
      requires Going(names) && Stored(Room(), names, rel, b) && src == staging.path + rel
      modifies ctx, client, fs`faults
      ensures Since(exit, ctx, names)
      ensures old(client.log) <= client.log
      ensures exit.None? && reason.None? ==> Cleared(client.log, b)
      ensures reason.Some? ==> MalwareReason(cfg, client.log, reason.value, b)
    {
      hide Going, Sane, Now, NfcKeepsSafe, Stored, ValidConfig, Counted, Complained, Protested, Sub, Outside, Keep,
        Judged, TooLargeForDaemon;
      StoredAt(fs.m, staging.path, names, rel, b);
      GoingFacts(names);
      reason, exit := None, None;
      var file := fs.ReadFile(src);
      StillCounted();
      if file.None? {
        exit := Some(FilesystemExit);
      } else {
        var outcome := AskDaemon(ctx, file.value);
        if outcome.Ok? {
          reason := outcome.value;
        } else {
          exit := Some(outcome.error);
        }
      }
      LogGrows(ctx, names);
      GoingSane(names);
    }

    /** Further exchanges with the daemon keep a scan going. */
    twostate lemma LogGrows(ctx: Context, new names: set<string>)
      requires old(Going(names)) && fs.m == old(fs.m) && fs.intact == old(fs.intact) && fs.faults >= old(fs.faults)
      requires old(client.log) <= client.log && files == old(files) && bytes == old(bytes)
      requires Counted() && archiveFiles == old(archiveFiles) && (old(ctx.done) ==> ctx.done)
      requires staging.done == old(staging.done) && staging.path == old(staging.path)
      requires fs.disk.flushed == old(fs.disk.flushed)
      ensures Going(names) && Later(old(Now(ctx, names)), Now(ctx, names))
    {
      assert old(Ledger(lib, cfg, client.log, files, bytes) && Agree(files, bytes, Output()) &&
        Traced(Output(), client.log)) by {
        assert Look(true);
      }
      assert inputFiles + archiveFiles <= cfg.maxDiscovered by {
        assert Look(true);
      }
      hide Going, Sane, Now, Ledger, Agree, Traced, Counted;
      LedgerLater(lib, cfg, old(client.log), client.log, files, bytes);
      TracedLater(Output(), old(client.log), client.log);
      StillGoing(names);
      NothingDisturbed(ctx, names);
    }

    // ----- Unpacking -----

    /** A step confined to one further entry leaves what always holds. */
    twostate lemma EntryStanding(new x: string)
      requires old(Standing()) && x != APPROVED
      requires Outside(fs.m, staging.path + [x]) == old(Outside(fs.m, staging.path + [x]))
      requires Unwatched(fs, staging.path + [x])
      requires fs.faults >= old(fs.faults) && client.log == old(client.log)
      requires staging.done == old(staging.done) && staging.path == old(staging.path)
      requires Counted() && archiveFiles == old(archiveFiles)
      ensures Standing() && Output() == old(Output())
    {
      FurtherEntry(old(fs.m), fs.m, staging.path, x, {});
      StillFree(old(fs.m), fs.m, staging.path, staging.final);
      hide Traced, Sub, Outside, NfcKeepsSafe, ValidConfig, CanCreate;
      assert Unwatched(fs, staging.path);
      hide Unwatched;
      assert Standing();
    }

    lemma UnderwayGoing(names: set<string>)
      requires Underway(names)
      ensures Going(names)
    {
    }

    twostate lemma WasUnderway(new names: set<string>)
      requires old(Going(names))
      ensures old(Underway(names)) && old(Standing()) && old(Counted())
    {
      assert Look(true);
    }

    /** A step confined to one further entry of the staging directory. */
    twostate lemma EntryUsed(ctx: Context, new x: string, new names: set<string>)
      requires old(Going(names)) && x !in names && x != APPROVED
      requires Outside(fs.m, staging.path + [x]) == old(Outside(fs.m, staging.path + [x]))
      requires Unwatched(fs, staging.path + [x])
      requires fs.intact == old(fs.intact) && fs.faults >= old(fs.faults) && (old(ctx.done) ==> ctx.done)
      requires client.log == old(client.log) && files == old(files) && bytes == old(bytes)
      requires archiveFiles == old(archiveFiles)
      requires staging.done == old(staging.done) && staging.path == old(staging.path)
      requires Counted() && old(fs.disk.flushed) <= fs.disk.flushed
      ensures Going(names + {x}) && Later(old(Now(ctx, names)), Now(ctx, names))
      ensures fs.m == old(fs.m) || fs.faults > base ==> Going(names)
    {
      hide Going, Sane, Ledger, Agree, Tidy, Traced, Sub, Outside, NfcKeepsSafe, ValidConfig, Keep, OpenDirs, CanCreate,
        Unwatched;
      WasUnderway(names);
      FurtherEntry(old(fs.m), fs.m, staging.path, x, names);
      EntryStanding(x);
      SavedLater(Output(), staging.Area(), old(fs.disk.flushed), fs.disk.flushed);
      hide Standing;
      assert staging.Open();
      UnderwayGoing(names + {x});
      if fs.m == old(fs.m) || fs.faults > base {
        UnderwayGoing(names);
      }
    }

    /** There is room for a further entry, and nobody is watching it. */
    lemma EntryReady(x: string, names: set<string>)
      requires Going(names) && x !in names && x != APPROVED && Normal(x) && ByteLen(x) <= MAX_COMPONENT
      ensures Unwatched(fs, staging.path + [x])
      ensures fs.faults == base ==> CanCreate(fs.m, staging.path + [x])
    {
      assert Look(true);
      ApartBelow(fs.watch, staging.path, staging.path + [x]);
      if fs.faults == base {
        EntryFree(fs.m, staging.path, x, names);
      }
    }

    /** `Extract` of a stored container into a work directory, in terms of its bytes. */
    method ExtractWork(ctx: Context, src: Path, work: Path, limits: Limits, ghost b: Bytes)
      returns (r: Outcome, ghost nodes: map<Path, NodeInfo>)
      requires NfcKeepsSafe(lib) && Unwatched(fs, work) && ValidLimits(limits) && lib.parse(b).Some?
      requires src in fs.m && fs.m[src].File? && fs.m[src].data == b
      requires base <= fs.faults && (fs.faults == base ==> CanCreate(fs.m, work))
      modifies meter, ctx, fs
      ensures (old(ctx.done) ==> ctx.done) && Within(fs, work)
      ensures meter.total <= old(meter.total) + r.stats.extracted && r.stats.extracted <= limits.maxTotalBytes
      ensures r.Extracted? ==>
        fs.faults == old(fs.faults) && ExtractedAs(lib, lib.parse(b).value, nodes, r, Sub(fs.m, work), limits)
      ensures r.Failed? ==> fs.m == old(fs.m) || fs.faults > base
      ensures r.Failed? ==> (r.code == Canceled ==> ctx.done) && r.code != InvalidLimits
      ensures r.Failed? ==> (r.code == IOError ==> fs.faults > base)
      ensures r.Failed? && r.code !in {Canceled, IOError} ==>
        ContainerFault(lib, b, limits, r.code) || (r.code == Invalid && fs.faults > base)
      ensures !(r.Failed? && r.code == LimitExceeded) ==> r.stats.extracted == meter.total - old(meter.total)
      ensures r.Failed? && r.code == LimitExceeded ==>
        LimitCause(lib, b, limits, r.stats.extracted, meter.total - old(meter.total))
    {
      hide NfcKeepsSafe, ExtractedAs, Unwatched, CanCreate, Sub, Outside, Refusable, ContainerFault, LimitCause;
      r, nodes := Extract(ctx, meter, lib, fs, src, work, limits);
    }

    /** `Extract` into a work directory of its own, charged to the budget of the batch. */
    method Unpack(
      ctx: Context, src: Path, x: string, limits: Limits, ghost rel: Path, ghost b: Bytes, ghost found: nat,
      ghost names: set<string>
    ) returns (r: Outcome, ghost nodes: map<Path, NodeInfo>)
      requires Going(names) && Stored(Room(), names, rel, b) && src == staging.path + rel && Inspected(b, limits, found)
      requires x !in names && x != APPROVED && Normal(x) && ByteLen(x) <= MAX_COMPONENT
      modifies this`extracted, meter, ctx, fs
      ensures Later(old(Now(ctx, names)), Now(ctx, names)) && extracted == old(extracted) + r.stats.extracted
      ensures !(r.Failed? && r.code == LimitExceeded) ==>
        extracted - old(extracted) == meter.total - old(meter.total)
      ensures r.Failed? && r.code == LimitExceeded ==>
        LimitCause(lib, b, limits, extracted - old(extracted), meter.total - old(meter.total))
      ensures r.Extracted? ==> Going(names + {x}) && fs.faults == old(fs.faults)
      ensures r.Extracted? ==> ExtractedAs(lib, lib.parse(b).value, nodes, r, Sub(fs.m, staging.path + [x]), limits)
      ensures r.Failed? ==> Going(names) && (r.code == Canceled ==> ctx.done)
      ensures r.Failed? ==> (r.code == IOError ==> fs.faults > base) && r.code != InvalidLimits
      ensures r.Failed? && r.code !in {Canceled, IOError} ==>
        RefusedWithin(lib, cfg, client.log, b, r.code) || (r.code == Invalid && fs.faults > base)
    {
      hide Going, Sane, Now, NfcKeepsSafe, Stored, ValidConfig, ExtractedAs, Unwatched, CanCreate, Sub, Outside,
        ByteLen, Normal, ContainerFault, Truthful, LimitCause, RefusedWithin, Later, Inspected, Counted, LimitsFor,
        ValidLimits, Room, Keep, Apart, Absent, Tidy;
      ghost var left := cfg.maxExtractedTotal - extracted;
      UnpackReady(x, limits, rel, b, found, names);
      r, nodes := ExtractWork(ctx, src, staging.path + [x], limits, b);
      if r.Failed? {
        FaultRefuses(b, limits, r.code);
      }
      extracted := extracted + r.stats.extracted;
      WorkCharged(ctx, left, x, names);
    }

    /** A step confined to a work directory, once what it has delivered is charged. */
    twostate lemma WorkCharged(ctx: Context, new left: int, new x: string, new names: set<string>)
      requires old(Going(names)) && x !in names && x != APPROVED && Within(fs, staging.path + [x])
      requires (old(ctx.done) ==> ctx.done) && client.log == old(client.log)
      requires files == old(files) && bytes == old(bytes) && archiveFiles == old(archiveFiles)
      requires staging.done == old(staging.done) && staging.path == old(staging.path)
      requires fs.disk.flushed == old(fs.disk.flushed)
      requires left == cfg.maxExtractedTotal - old(extracted) && old(extracted) <= extracted <= old(extracted) + left
      requires meter.total - old(meter.total) <= extracted - old(extracted)
      ensures Going(names + {x}) && Later(old(Now(ctx, names)), Now(ctx, names))
      ensures fs.m == old(fs.m) || fs.faults > base ==> Going(names)
    {
      hide Going, Sane, Now, NfcKeepsSafe, Stored, ValidConfig, Unwatched, CanCreate, Sub, Outside, Truthful, Later,
        Counted, Room, Keep, Underway, Standing;
      WasUnderway(names);
      StillCharged(left);
      EntryUsed(ctx, x, names);
    }

    lemma UnpackReady(x: string, limits: Limits, rel: Path, b: Bytes, found: nat, names: set<string>)
      requires Going(names) && Stored(Room(), names, rel, b) && Inspected(b, limits, found)
      requires x !in names && x != APPROVED && Normal(x) && ByteLen(x) <= MAX_COMPONENT
      ensures var src := staging.path + rel; src in fs.m && fs.m[src].File? && fs.m[src].data == b
      ensures Unwatched(fs, staging.path + [x]) && base <= fs.faults && NfcKeepsSafe(lib)
      ensures fs.faults == base ==> CanCreate(fs.m, staging.path + [x])
      ensures extracted < cfg.maxExtractedTotal && limits == LimitsFor(cfg, cfg.maxExtractedTotal - extracted)
      ensures ValidLimits(limits) && Allowed(b, cfg.maxExtractedTotal - extracted) in client.log
      ensures lib.parse(b).Some? && limits.maxTotalBytes == cfg.maxExtractedTotal - extracted
    {
      hide Going, Sane, Unwatched, CanCreate, NfcKeepsSafe, Stored, Inspected, Normal, ByteLen, Sub, ValidConfig,
        Counted;
      StoredThere(rel, b, names);
      EntryReady(x, names);
      GoingFacts(names);
      InspectedFacts(b, limits, found);
    }

    lemma InspectedFacts(b: Bytes, limits: Limits, found: nat)
      requires Inspected(b, limits, found)
      ensures extracted < cfg.maxExtractedTotal && limits == LimitsFor(cfg, cfg.maxExtractedTotal - extracted)
      ensures ValidLimits(limits) && Allowed(b, cfg.maxExtractedTotal - extracted) in client.log
      ensures lib.parse(b).Some? && limits.maxTotalBytes == cfg.maxExtractedTotal - extracted
    {
    }

    /** Charging what an extraction has delivered keeps the counts right, as long as it is within what was left. */
    twostate lemma StillCharged(new left: int)
      requires old(Counted()) && client.log == old(client.log) && fs.faults >= old(fs.faults)
      requires left == cfg.maxExtractedTotal - old(extracted) && old(extracted) <= extracted <= old(extracted) + left
      requires meter.total - old(meter.total) <= extracted - old(extracted)
      ensures Counted()
    {
      hide Truthful;
      TruthfulLater(client.log, inputFiles, left, cfg.maxExtractedTotal - extracted, old(fs.faults) > base,
        fs.faults > base);
    }

    /** A step that clears one of the entries in use. */
    twostate lemma EntryDropped(ctx: Context, new x: string, new names: set<string>)
      requires old(Going(names + {x})) && x !in names && x != APPROVED
      requires Outside(fs.m, staging.path + [x]) == old(Outside(fs.m, staging.path + [x]))
      requires Unwatched(fs, staging.path + [x])
      requires fs.intact == old(fs.intact) && fs.faults >= old(fs.faults) && (old(ctx.done) ==> ctx.done)
      requires client.log == old(client.log) && files == old(files) && bytes == old(bytes)
      requires archiveFiles == old(archiveFiles) && extracted == old(extracted) && meter.total == old(meter.total)
      requires staging.done == old(staging.done) && staging.path == old(staging.path)
      ensures Sane() && Later(old(Now(ctx, names)), Now(ctx, names))
    {
      assert old(Standing()) by {
        assert Look(true);
      }
      hide Going, Sane, Ledger, Agree, Tidy, Traced, Sub, Outside, NfcKeepsSafe, ValidConfig, Keep, OpenDirs, CanCreate,
        Unwatched, Counted;
      StillCounted();
      FurtherEntry(old(fs.m), fs.m, staging.path, x, names);
      EntryStanding(x);
      assert Standing();
      hide Standing;
      assert Later(old(Now(ctx, names)), Now(ctx, names));
    }

    twostate lemma EntryReleased(ctx: Context, new x: string, new names: set<string>)
      requires old(Going(names + {x})) && x !in names && x != APPROVED
      requires Outside(fs.m, staging.path + [x]) == old(Outside(fs.m, staging.path + [x]))
      requires Unwatched(fs, staging.path + [x])
      requires fs.intact == old(fs.intact) && fs.faults >= old(fs.faults) && (old(ctx.done) ==> ctx.done)
      requires client.log == old(client.log) && files == old(files) && bytes == old(bytes)
      requires archiveFiles == old(archiveFiles) && extracted == old(extracted) && meter.total == old(meter.total)
      requires staging.done == old(staging.done) && staging.path == old(staging.path)
      requires Absent(fs.m, staging.path + [x]) || fs.faults > base
      requires fs.disk.flushed == old(fs.disk.flushed)
      ensures Going(names)
    {
      hide Going, Sane, Ledger, Agree, Tidy, Traced, Sub, Outside, NfcKeepsSafe, ValidConfig, Keep, OpenDirs, CanCreate,
        Unwatched, Absent, Counted;
      WasUnderway(names + {x});
      StillCounted();
      EntryStanding(x);
      if fs.faults == base {
        EntryCleared(old(fs.m), fs.m, staging.path, x, names);
      }
      assert Standing();
      hide Standing;
      assert staging.Open();
      UnderwayGoing(names);
    }

    lemma EntryClears(x: string, names: set<string>)
      requires Going(names + {x}) && OpenDirs(Sub(fs.m, staging.path + [x]))
      ensures fs.Valid() && base <= fs.faults && (fs.faults == base ==> Removable(fs.m, staging.path + [x]))
      ensures Unwatched(fs, staging.path + [x])
    {
      assert Look(true);
      ApartBelow(fs.watch, staging.path, staging.path + [x]);
      if fs.faults == base {
        EntryRemovable(fs.m, staging.path, x, names + {x});
      }
    }

    /** `os.RemoveAll` of a work directory. */
    method RemoveWork(ctx: Context, x: string, ghost names: set<string>) returns (exit: Option<Exit>)
      requires Going(names + {x}) && x !in names && x != APPROVED && OpenDirs(Sub(fs.m, staging.path + [x]))
      modifies fs
      ensures Since(exit, ctx, names)
    {
      EntryClears(x, names);
      hide Going, Sane, Now, Unwatched, Removable, Sub, OpenDirs;
      var ok := RemoveAllAt(fs, staging.path + [x]);
      EntryDropped(ctx, x, names);
      if ok || fs.faults > base {
        EntryReleased(ctx, x, names);
      }
      exit := if ok then None else Some(FilesystemExit);
    }

    /** Unpacking a document and throwing the result away. */
    method Rehearse(
      ctx: Context, src: Path, x: string, limits: Limits, ghost rel: Path, ghost b: Bytes, ghost found: nat,
      ghost names: set<string>
    ) returns (failed: Option<Code>, omitted: Option<Code>, exit: Option<Exit>)
      requires Going(names) && Stored(Room(), names, rel, b) && src == staging.path + rel && Inspected(b, limits, found)
      requires x !in names && x != APPROVED && Normal(x) && ByteLen(x) <= MAX_COMPONENT
      modifies this`extracted, meter, ctx, fs
      ensures Since(exit, ctx, names)
      ensures exit.None? && failed.None? ==> CleanContainer(lib, cfg, b)
      ensures exit.None? && failed.None? && omitted.None? ==> NothingOmitted(lib, b)
      ensures failed.Some? ==> exit.None? && failed.value != InvalidLimits
      ensures failed.Some? ==> (failed.value == Canceled ==> ctx.done) && (failed.value == IOError ==> fs.faults > base)
      ensures failed.Some? && failed.value !in {Canceled, IOError} ==>
        RefusedWithin(lib, cfg, client.log, b, failed.value) || (failed.value == Invalid && fs.faults > base)
      ensures omitted.Some? ==>
        failed.None? && omitted.value in {Symlink, SpecialFile} && HasOmission(lib, b, omitted.value)
    {
      hide Going, Sane, Now, Stored, ExtractedAs, Sub, OpenDirs, CleanContainer, NothingOmitted, ValidLimits,
        ValidConfig, NfcKeepsSafe, Outside, Keep, Counted, RanOut, EngineFailed;
      GoingFacts(names);
      ghost var n := cfg.maxExtractedTotal - extracted;
      assert limits == LimitsFor(cfg, n);
      assert lib.parse(b).Some?;
      hide Inspected, LimitsFor, RefusedWithin, HasOmission;
      ghost var nodes;
      var r;
      failed, omitted, exit := None, None, None;
      r, nodes := Unpack(ctx, src, x, limits, rel, b, found, names);
      if r.Failed? {
        failed := Some(r.code);
      } else {
        Unpacked(lib, cfg, b, n, nodes, r, Sub(fs.m, staging.path + [x]));
        ghost var unpacked := fs.m;
        exit := RemoveWork(ctx, x, names);
        if |r.stats.rejected| != 0 {
          assert r.stats.rejected[0] in r.stats.rejected;
          omitted := Some(r.stats.rejected[0].code);
          RejectionIsOmission(b, nodes, r, Sub(unpacked, staging.path + [x]), LimitsFor(cfg, n), r.stats.rejected[0]);
        }
      }
      GoingSane(names);
    }

    lemma RejectionIsOmission(
      b: Bytes, nodes: map<Path, NodeInfo>, r: Outcome, t: Tree, limits: Limits, q: RejectedEntry
    )
      requires lib.parse(b).Some? && r.Extracted? && q in r.stats.rejected
      requires ExtractedAs(lib, lib.parse(b).value, nodes, r, t, limits)
      ensures HasOmission(lib, b, q.code)
    {
      var f := RejectedFrom(lib, lib.parse(b).value, q);
    }

    /** `validateOOXML`: a document must unpack to its end, with nothing left out. */
    method ValidateOoxml(
      ctx: Context, src: Path, limits: Limits, record: Record,
      ghost rel: Path, ghost b: Bytes, ghost found: nat, ghost out: Path, ghost names: set<string>
    ) returns (valid: bool, exit: Option<Exit>)
      requires Going(names) && |bytes| == |files| && Draft(lib, files, bytes, record, b, out)
      requires Stored(Room(), names, rel, b) && src == staging.path + rel && Inspected(b, limits, found)
      requires WorkFits(record.id, names) && record.detected.Ooxml? && Seen(client.log, b, record.detected)
      modifies this`files, this`bytes, this`extracted, meter, ctx, fs, client
      ensures Since(exit, ctx, names)
      ensures valid ==> exit.None? && files == old(files) && bytes == old(bytes)
      ensures valid ==> CleanContainer(lib, cfg, b) && NothingOmitted(lib, b)
      ensures old(client.log) <= client.log
      ensures !valid && exit.None? ==> Declined(record)
    {
      hide Going, Sane, Now, Draft, Stored, Sub, CleanContainer, NothingOmitted, RefusedWithin, HasOmission, Seen,
        JudgedPath;
      valid := false;
      var failed, omitted;
      failed, omitted, exit := Rehearse(ctx, src, WorkName(record.id), limits, rel, b, found, names);
      if failed.Some? {
        exit := ArchiveFailure(ctx, record, failed.value, b, out, names);
      } else if exit.None? && omitted.Some? {
        Reject(record, FromZip(omitted.value), b, out, names);
      } else {
        valid := exit.None?;
      }
      GoingSane(names);
    }

    /** The work directory of a record is an entry that nothing else uses. */
    ghost predicate WorkFits(id: string, names: set<string>) {
      var x := WorkName(id);
      x !in names && x != APPROVED && Normal(x) && ByteLen(x) <= MAX_COMPONENT
    }

    // ----- One file -----

    /** `applyExtensionPolicy` */
    method ApplyExtensionPolicy(record: Record, d: Detection, ghost b: Bytes, ghost out: Path, ghost names: set<string>)
      returns (r: Record, rejected: bool)
      requires Going(names) && |bytes| == |files| && Draft(lib, files, bytes, record, b, out)
      requires record.detected == d.kind && Examined(b, Ok(d)) in client.log
      modifies this`files, this`bytes
      ensures Going(names)
      ensures r == record.(warnings := if d.mismatch then record.warnings + [Mismatch] else record.warnings)
      ensures rejected <==> cfg.rejectMismatch && d.mismatch
      ensures rejected ==> Declined(record) && files[|old(files)|].reason == Some(ExtensionMismatch)
      ensures !rejected ==> files == old(files) && bytes == old(bytes) && Draft(lib, files, bytes, r, b, out)
    {
      WasExamined(record, d, b);
      hide Going, Draft, Seen, SeenMismatch, JudgedPath, Warns, Examination;
      r, rejected := record, false;
      if d.mismatch {
        r := r.(warnings := r.warnings + [Mismatch]);
        SameDraft(record, r, b, out);
        rejected := cfg.rejectMismatch;
        if rejected {
          Reject(r, ExtensionMismatch, b, out, names);
        }
      }
    }

    /** The policy on executables and on names that do not fit the contents. */
    method ScreenType(record: Record, d: Detection, ghost b: Bytes, ghost out: Path, ghost names: set<string>)
      returns (r: Record, rejected: bool)
      requires Going(names) && |bytes| == |files| && Draft(lib, files, bytes, record, b, out)
      requires record.detected == d.kind && FirstWarnings(record, d) && Examined(b, Ok(d)) in client.log
      requires record.origin.Upload? ==> !d.kind.ArchiveZip?
      modifies this`files, this`bytes
      ensures Going(names)
      ensures rejected <==>
        (cfg.rejectExecutables && d.kind in {Executable, Package}) || (cfg.rejectMismatch && d.mismatch)
      ensures rejected ==> Declined(record)
      ensures rejected ==>
        files[|old(files)|].reason ==
        Some(if cfg.rejectExecutables && d.kind in {Executable, Package} then ExecutableNotAllowed
             else ExtensionMismatch)
      ensures !rejected ==> files == old(files) && bytes == old(bytes) && r == record.(warnings := r.warnings)
      ensures !rejected ==> Draft(lib, files, bytes, r, b, out) && Warns(r, d)
    {
      WasExamined(record, d, b);
      hide Going, Draft, Seen, SeenMismatch, JudgedPath, FirstWarnings, Warns, Examination;
      r, rejected := record, cfg.rejectExecutables && IsExecutable(d.kind);
      if rejected {
        Reject(record, ExecutableNotAllowed, b, out, names);
      } else {
        if IsExecutable(d.kind) {
          r := r.(warnings := r.warnings + [ExecutableFound]);
        } else if d.unusual.Some? {
          r := r.(warnings := r.warnings + [Unusual(d.unusual.value)]);
        }
        TypeWarned(record, r, d);
        SameDraft(record, r, b, out);
        r, rejected := ApplyExtensionPolicy(r, d, b, out, names);
      }
    }

    /** The warnings a record has before the type policy is applied: whether it is an archive of some kind. */
    predicate FirstWarnings(r: Record, d: Detection) {
      r.warnings ==
      if r.origin.Upload? && !d.kind.ArchiveZip? && d.archiveMime then [ArchiveNotSupported]
      else if r.origin.FromArchive? && (d.kind in {ArchiveZip, Package} || d.archiveMime) then [NestedArchive]
      else []
    }

    /** What the type policy adds to them: first what the type is worth, then that the name does not fit. */
    function TypeWarnings(d: Detection): seq<Warning> {
      if IsExecutable(d.kind) then [ExecutableFound]
      else if d.unusual.Some? then [Unusual(d.unusual.value)]
      else []
    }

    lemma FirstMembers(record: Record, d: Detection, w: Warning)
      requires FirstWarnings(record, d)
      ensures w in record.warnings <==>
        || (w.ArchiveNotSupported? && record.origin.Upload? && !d.kind.ArchiveZip? && d.archiveMime)
        || (w.NestedArchive? && record.origin.FromArchive? && (d.kind in {ArchiveZip, Package} || d.archiveMime))
    {
    }

    lemma TypeMembers(d: Detection, w: Warning)
      ensures w in TypeWarnings(d) <==>
        || (w.ExecutableFound? && d.kind in {Executable, Package})
        || (w.Unusual? && d.unusual == Some(w.code) && d.kind !in {Executable, Package})
    {
    }

    lemma TypeWarned(record: Record, r: Record, d: Detection)
      requires FirstWarnings(record, d) && r.origin == record.origin && !(r.origin.Upload? && d.kind.ArchiveZip?)
      requires r.warnings == if TypeWarnings(d) == [] then record.warnings else record.warnings + TypeWarnings(d)
      ensures !d.mismatch ==> Warns(r, d)
      ensures d.mismatch ==> Warns(r.(warnings := r.warnings + [Mismatch]), d)
    {
      hide FirstWarnings, TypeWarnings;
      forall w
        ensures w in r.warnings <==> w in record.warnings || w in TypeWarnings(d)
        ensures w in r.warnings + [Mismatch] <==> w == Mismatch || w in record.warnings || w in TypeWarnings(d)
        ensures w in record.warnings <==>
          || (w.ArchiveNotSupported? && record.origin.Upload? && !d.kind.ArchiveZip? && d.archiveMime)
          || (w.NestedArchive? && record.origin.FromArchive? && (d.kind in {ArchiveZip, Package} || d.archiveMime))
        ensures w in TypeWarnings(d) <==>
          || (w.ExecutableFound? && d.kind in {Executable, Package})
          || (w.Unusual? && d.unusual == Some(w.code) && d.kind !in {Executable, Package})
      {
        FirstMembers(record, d, w);
        TypeMembers(d, w);
      }
    }

    /** What a draft says does not depend on what the detector and the policy have noted in it. */
    lemma SameDraft(record: Record, r: Record, b: Bytes, out: Path)
      requires |bytes| == |files| && Draft(lib, files, bytes, record, b, out)
      requires r == record.(warnings := r.warnings, detected := r.detected, shape := r.shape)
      ensures Draft(lib, files, bytes, r, b, out)
    {
      hide Provenance;
    }

    /** The inspection of a document, then the daemon, then the rehearsal of its unpacking. */
    method ScreenContents(
      ctx: Context, src: Path, record: Record, ghost rel: Path, ghost b: Bytes, ghost out: Path,
      ghost names: set<string>
    ) returns (passed: bool, exit: Option<Exit>)
      requires Going(names) && |bytes| == |files| && Draft(lib, files, bytes, record, b, out)
      requires Stored(Room(), names, rel, b) && src == staging.path + rel && WorkFits(record.id, names)
      requires Seen(client.log, b, record.detected)
      modifies this`files, this`bytes, this`extracted, meter, ctx, fs, client
      ensures Since(exit, ctx, names)
      ensures passed ==> exit.None? && files == old(files) && bytes == old(bytes) && Cleared(client.log, b)
      ensures passed && record.detected.Ooxml? ==> CleanContainer(lib, cfg, b) && NothingOmitted(lib, b)
      ensures old(client.log) <= client.log
      ensures !passed && exit.None? ==> Declined(record)
    {
      hide Going, Sane, Now, Draft, Stored, Sub, CleanContainer, NothingOmitted, Inspected, WorkFits, Seen;
      ghost var log := client.log;
      var limits, found := LimitsFor(cfg, 0), 0;
      passed, exit := true, None;
      if record.detected.Ooxml? {
        limits, found, passed, exit := PreflightContainer(ctx, src, record, false, rel, b, out, names);
      }
      if passed {
        SeenLater(log, client.log, b, record.detected);
        passed, exit := ScreenMalware(ctx, src, record, limits, rel, b, found, out, names);
      }
      GoingSane(names);
    }

    /** The daemon, then the rehearsal. */
    method ScreenMalware(
      ctx: Context, src: Path, record: Record, limits: Limits,
      ghost rel: Path, ghost b: Bytes, ghost found: nat, ghost out: Path, ghost names: set<string>
    ) returns (passed: bool, exit: Option<Exit>)
      requires Going(names) && |bytes| == |files| && Draft(lib, files, bytes, record, b, out)
      requires Stored(Room(), names, rel, b) && src == staging.path + rel && WorkFits(record.id, names)
      requires record.detected.Ooxml? ==> Inspected(b, limits, found)
      requires Seen(client.log, b, record.detected)
      modifies this`files, this`bytes, this`extracted, meter, ctx, fs, client
      ensures Since(exit, ctx, names)
      ensures passed ==> exit.None? && files == old(files) && bytes == old(bytes) && Cleared(client.log, b)
      ensures passed && record.detected.Ooxml? ==> CleanContainer(lib, cfg, b) && NothingOmitted(lib, b)
      ensures old(client.log) <= client.log
      ensures !passed && exit.None? ==> Declined(record)
    {
      hide Going, Sane, Now, Draft, Stored, Sub, CleanContainer, NothingOmitted, Inspected, WorkFits, Seen, JudgedPath;
      ghost var log := client.log;
      var reason;
      passed := false;
      reason, exit := ScanMalware(ctx, src, rel, b, names);
      SeenLater(log, client.log, b, record.detected);
      StillInspected(b, limits, found);
      if exit.None? && reason.Some? {
        Reject(record, reason.value, b, out, names);
      } else if exit.None? && record.detected.Ooxml? {
        log := client.log;
        passed, exit := ValidateOoxml(ctx, src, limits, record, rel, b, found, out, names);
        JudgedLater(log, client.log, b, Clamd.Clean);
      } else {
        passed := exit.None?;
      }
      GoingSane(names);
    }

    // ----- Approval -----

    /** Whatever happens in the approved directory, traces must be kept there and the rest left alone. */
    twostate lemma AreaUsed(ctx: Context, new names: set<string>)
      requires old(Going(names)) && staging.Pending() && Traced(Output(), client.log)
      requires Outside(fs.m, staging.Area()) == old(Outside(fs.m, staging.Area()))
      requires fs.intact == old(fs.intact) && fs.faults >= old(fs.faults) && (old(ctx.done) ==> ctx.done)
      requires client.log == old(client.log) && extracted == old(extracted) && meter.total == old(meter.total)
      requires archiveFiles == old(archiveFiles)
      requires staging.path == old(staging.path)
      ensures Sane() && Later(old(Now(ctx, names)), Now(ctx, names))
      ensures APPROVED !in names && (fs.faults == base ==> Tidy(Room(), names))
    {
      WasUnderway(names);
      hide Going, Sane, Ledger, Agree, Tidy, Traced, Sub, Outside, NfcKeepsSafe, ValidConfig, Keep, OpenDirs, CanCreate,
        Unwatched, Counted;
      StillCounted();
      ApprovedOnly(old(fs.m), fs.m, staging.path, names);
      assert Standing();
      assert Later(old(Now(ctx, names)), Now(ctx, names));
    }

    /** What is left to show once the approved directory has changed: that the books agree with it. */
    lemma Rebooked(names: set<string>)
      requires Sane() && staging.Open() && APPROVED !in names && (fs.faults == base ==> Tidy(Room(), names))
      requires OutputSaved()
      requires Ledger(lib, cfg, client.log, files, bytes) && Agree(files, bytes, Output())
      ensures Going(names)
    {
      assert Standing() by {
        assert Look(true);
      }
      hide Going, Sane, Standing, Ledger, Agree, Tidy, Traced, Sub, Outside, Keep, OpenDirs, CanCreate, Unwatched;
      assert Underway(names);
    }

    /** The slot of a fresh output is free. */
    lemma SlotReady(out: Path, names: set<string>)
      requires Going(names) && |bytes| == |files| && FreshOut(files, out) && out != [] && Creatable(out)
      ensures staging.Open() && staging.fs == fs && staging.lib == lib
      ensures FreeSlot(Output(), out) && WayClear(Output(), out) && APPROVED !in names
    {
      assert Look(true);
      FreshIsFree(files, bytes, Output(), out);
    }

    /** `approve`, once the output is in place. */
    method Approve(record: Record, out: Path, action: Action, ghost b: Bytes, ghost t: Tree)
      requires Ledger(lib, cfg, client.log, files, bytes) && Agree(files, bytes, t)
      requires Draft(lib, files, bytes, record, b, out)
      requires out != [] && FreshOut(files, out)
      requires (action.Copied? && record.shape.PlainFile?) || (action.Expanded? && record.shape.Container?)
      requires Vouched(lib, cfg, client.log, ApprovedAt(record, out, action), b)
      modifies this`files, this`bytes
      ensures files == old(files) + [ApprovedAt(record, out, action)] && bytes == old(bytes) + [b]
      ensures Ledger(lib, cfg, client.log, files, bytes)
      ensures Agree(files, bytes, WithOutput(t, ApprovedAt(record, out, action), b))
    {
      ApprovalEntered(lib, cfg, client.log, files, bytes, t, record, action, b, out);
      hide Ledger, Agree, Draft, Vouched, FreshOut;
      files := files + [ApprovedAt(record, out, action)];
      bytes := bytes + [b];
    }

    /** `CopyContext`, and what the scan makes of its failure or of a digest it did not expect. */
    method TryCopy(ctx: Context, src: Path, name: string, expected: (Digest, nat), ghost out: Path, ghost b: Bytes)
      returns (exit: Option<Exit>)
      requires staging.Open() && staging.fs == fs && staging.lib == lib && !(staging.Area() <= src)
      requires ApprovedPath(name) == Some(out) && FreeSlot(Output(), out)
      requires src in fs.m && fs.m[src].File? && fs.m[src].data == b && expected == (lib.sha(b), |b|)
      requires base <= fs.faults
      modifies ctx, fs, fs.disk
      ensures old(ctx.done) ==> ctx.done
      ensures staging.Open() && Within(fs, staging.Area()) && PartialCopy(old(Output()), Output(), out, b)
      ensures old(fs.disk.flushed) <= fs.disk.flushed
      ensures exit.None? ==> Durable(staging.Area() + out, b) in fs.disk.flushed
      ensures exit.None? ==> Output() == AddedFile(old(Output()), out, b)
      ensures exit.Some? ==> Blamed(exit.value, ctx)
    {
      hide Sub, Outside, FreeSlot, AddedFile, PartialCopy, Unwatched, CanCreate, OpenDirs, ApprovedPath;
      exit := None;
      var copied := staging.CopyContext(ctx, src, name);
      if copied.None? {
        var canceled := ctx.Err();
        exit := Some(if canceled then CanceledExit else FilesystemExit);
      } else if copied.value != expected {
        exit := Some(InputExit);
      }
    }

    /** The same in terms of the whole scan: all of the file, or at most a trace of what has been cleared. */
    method CopyOut(
      ctx: Context, src: Path, name: string, expected: (Digest, nat), ghost out: Path, ghost rel: Path, ghost b: Bytes,
      ghost names: set<string>
    )
      returns (exit: Option<Exit>)
      requires Going(names) && |bytes| == |files| && Stored(Room(), names, rel, b) && src == staging.path + rel
      requires ApprovedPath(name) == Some(out) && Creatable(out) && out != [] && FreshOut(files, out)
      requires Cleared(client.log, b) && expected == (lib.sha(b), |b|)
      modifies ctx, fs, fs.disk
      ensures Sane() && Later(old(Now(ctx, names)), Now(ctx, names))
      ensures APPROVED !in names && (fs.faults == base ==> Tidy(Room(), names))
      ensures exit.None? ==> staging.Open() && Output() == AddedFile(old(Output()), out, b) && OutputSaved()
      ensures exit.Some? ==> Blamed(exit.value, ctx)
    {
      hide Going, Sane, Now, Ledger, Agree, Traced, Stored, Sub, Outside, FreshOut, FreeSlot, AddedFile, PartialCopy,
        WayClear, Unwatched, CanCreate, OpenDirs, Creatable, ApprovedPath, Tidy, NfcKeepsSafe, ValidConfig, Judged,
        Saved;
      GoingFacts(names);
      SlotReady(out, names);
      StoredAt(fs.m, staging.path, names, rel, b);
      GoingBooks(names);
      ghost var t := Output();
      ghost var flushed := fs.disk.flushed;
      exit := TryCopy(ctx, src, name, expected, out, b);
      if exit.None? {
        SavedAdded(t, staging.Area(), out, b, flushed, fs.disk.flushed);
      }
      TracedPartial(t, Output(), out, client.log, b);
      AreaUsed(ctx, names);
    }

    /** Copying an approved file out and entering its record. */
    method CopyApproved(
      ctx: Context, src: Path, name: string, record: Record, out: Path,
      ghost rel: Path, ghost b: Bytes, ghost names: set<string>
    ) returns (exit: Option<Exit>)
      requires Going(names) && |bytes| == |files| && Draft(lib, files, bytes, record, b, out) && record.shape.PlainFile?
      requires Stored(Room(), names, rel, b) && src == staging.path + rel
      requires ApprovedPath(name) == Some(out) && Creatable(out) && out != [] && FreshOut(files, out)
      requires Vouched(lib, cfg, client.log, ApprovedAt(record, out, Copied), b)
      modifies this`files, this`bytes, ctx, fs, fs.disk
      ensures Since(exit, ctx, names)
      ensures exit.None? ==> files == old(files) + [ApprovedAt(record, out, Copied)] && bytes == old(bytes) + [b]
    {
      hide Going, Sane, Now, Ledger, Agree, Traced, Stored, Sub, Outside, FreshOut, AddedFile, OpenDirs, Creatable,
        ApprovedPath, Provenance, Tidy, CleanContainer, NothingOmitted, Judged, Draft, Vouched, Described;
      GoingBooks(names);
      DraftFacts(record, b, out);
      ghost var t := Output();
      exit := CopyOut(ctx, src, name, (record.sha, record.size), out, rel, b, names);
      if exit.None? {
        Approve(record, out, Copied, b, t);
        assert Output() == WithOutput(t, ApprovedAt(record, out, Copied), b);
        Rebooked(names);
      }
    }

    lemma DraftFacts(record: Record, b: Bytes, out: Path)
      requires |bytes| == |files| && Draft(lib, files, bytes, record, b, out)
      requires Vouched(lib, cfg, client.log, ApprovedAt(record, out, Copied), b)
      ensures record.sha == lib.sha(b) && record.size == |b| && Cleared(client.log, b)
    {
      hide CleanContainer, NothingOmitted, OutputName;
    }

    /** Files in use stay what they are. */
    twostate lemma StoredStill(ctx: Context, new names: set<string>, new rel: Path, new b: Bytes)
      requires Later(old(Now(ctx, names)), Now(ctx, names)) && old(Stored(Room(), names, rel, b))
      ensures Stored(Room(), names, rel, b)
    {
      StoredKept(old(Room()), Room(), names, names, rel, b);
    }

    // ----- Members of an archive -----

    /** `hashFile` */
    method HashFile(ctx: Context, src: Path, ghost rel: Path, ghost b: Bytes, ghost names: set<string>)
      returns (digest: Digest, size: nat, exit: Option<Exit>)
      requires Going(names) && Stored(Room(), names, rel, b) && src == staging.path + rel
      modifies ctx, fs`faults
      ensures Since(exit, ctx, names)
      ensures exit.None? ==> digest == lib.sha(b) && size == |b|
    {
      hide Going, Sane, Now, Stored, NfcKeepsSafe, ValidConfig;
      StoredAt(fs.m, staging.path, names, rel, b);
      GoingFacts(names);
      digest, size, exit := "", 0, None;
      var data := fs.ReadFile(src);
      var canceled := ctx.Err();
      if canceled {
        exit := Some(CanceledExit);
      } else if data.None? {
        exit := Some(FilesystemExit);
      } else {
        digest, size := lib.sha(data.value), |data.value|;
      }
      Looked(ctx, names);
      GoingSane(names);
    }

    /** `rejectArchiveEntry` */
    method RejectEntry(
      q: RejectedEntry, container: string, attachment: string, parent: string,
      ghost c: nat, ghost directory: string, ghost z: Bytes, ghost f: Member, ghost names: set<string>
    )
      requires Going(names) && nextID == |files|
      requires ContainerAt(lib, files, bytes, c, parent, attachment, container, directory, z)
      requires f in lib.parse(z).value && EntryAbout(lib, q, f)
      modifies this`nextID, this`files, this`bytes
      ensures Going(names) && nextID == |files| && Entered() && !IsOut(files[|old(files)|])
      ensures About(files[|old(files)|]) ==
        Inside(Envelope(parent, attachment, container), Content(q.source, q.size, q.sha))
    {
      hide Going, Sane, Ledger, Agree, Traced, SourceOf, Sub;
      GoingBooks(names);
      GoingFacts(names);
      var record := NewFile(Some(parent), attachment, container + "!" + Join(q.source), FromArchive, q.size, q.sha);
      OmissionEntered(lib, cfg, client.log, files, bytes, Output(), c, parent, attachment, container, directory, z, f,
        q.code, record);
      files := files + [RejectedFor(record, FromZip(q.code))];
      bytes := bytes + [f.body.data];
      StillGoing(names);
    }

    /** Everything about a member but its copy: policy, contents, malware. */
    method ScreenMember(
      ctx: Context, physical: Path, record: Record,
      ghost rel: Path, ghost b: Bytes, ghost out: Path, ghost names: set<string>
    ) returns (r: Record, passed: bool, exit: Option<Exit>)
      requires Admitted(lib, cfg, record, out)
      requires Going(names) && |bytes| == |files| && Draft(lib, files, bytes, record, b, out)
      requires Stored(Room(), names, rel, b) && physical == staging.path + rel && WorkFits(record.id, names)
      requires record.shape.PlainFile? && record.warnings == [] && record.origin.FromArchive?
      modifies this`files, this`bytes, this`extracted, meter, ctx, fs, client
      ensures Since(exit, ctx, names)
      ensures passed ==> exit.None? && files == old(files) && bytes == old(bytes)
      ensures passed ==>
        Draft(lib, files, bytes, r, b, out) && r.shape.PlainFile? && r.id == record.id && About(r) == About(record)
      ensures passed ==> Vouched(lib, cfg, client.log, ApprovedAt(r, out, Copied), b)
      ensures !passed && exit.None? ==> Declined(record)
    {
      hide OutputName, Going, Sane, Now, Draft, Stored, Sub, CleanContainer, NothingOmitted, WorkFits, Judged,
        NfcKeepsSafe, ValidConfig;
      GoingFacts(names);
      r, passed, exit := record, false, None;
      var d, err := Detect(ctx, physical, b, names);
      r := r.(detected := d.kind);
      SameDraft(record, r, b, out);
      if err.Some? {
        exit := DetectorFailure(ctx, r, err.value, b, out, names);
      } else {
        if d.kind.ArchiveZip? || d.kind.Package? || d.archiveMime {
          r := r.(warnings := [NestedArchive]);
        } else if d.kind.ArchiveZip? {
          r := r.(shape := Container);
        }
        SameDraft(record, r, b, out);
        r, passed, exit := ScreenFile(ctx, physical, r, d, rel, b, out, names);
      }
      GoingSane(names);
    }

    /** The part that uploads and members have in common. */
    method ScreenFile(
      ctx: Context, src: Path, record: Record, d: Detection,
      ghost rel: Path, ghost b: Bytes, ghost out: Path, ghost names: set<string>
    ) returns (r: Record, passed: bool, exit: Option<Exit>)
      requires Admitted(lib, cfg, record, out)
      requires Going(names) && |bytes| == |files| && Draft(lib, files, bytes, record, b, out)
      requires Stored(Room(), names, rel, b) && src == staging.path + rel && WorkFits(record.id, names)
      requires record.detected == d.kind && FirstWarnings(record, d) && Examined(b, Ok(d)) in client.log
      requires record.origin.Upload? ==> record.size <= cfg.maxInputFileSize && !d.kind.ArchiveZip?
      modifies this`files, this`bytes, this`extracted, meter, ctx, fs, client
      ensures Since(exit, ctx, names)
      ensures passed ==> exit.None? && files == old(files) && bytes == old(bytes)
      ensures passed ==>
        Draft(lib, files, bytes, r, b, out) && r.shape == record.shape && r.id == record.id && About(r) == About(record)
      ensures passed ==> Vouched(lib, cfg, client.log, ApprovedAt(r, out, Copied), b)
      ensures !passed && exit.None? ==> Declined(record)
    {
      hide OutputName, Going, Sane, Now, Draft, Stored, Sub, CleanContainer, NothingOmitted, WorkFits, Judged,
        NfcKeepsSafe, ValidConfig, Seen, Warns, FirstWarnings, Examination;
      var rejected;
      passed, exit := false, None;
      r, rejected := ScreenType(record, d, b, out, names);
      if !rejected {
        SameDraft(record, r, b, out);
        WasExamined(r, d, b);
        ghost var log := client.log;
        passed, exit := ScreenContents(ctx, src, r, rel, b, out, names);
        SeenLater(log, client.log, b, r.detected);
        ExaminationLater(log, client.log, r, b);
        SameExamination(client.log, r, ApprovedAt(r, out, Copied), b);
      }
      GoingSane(names);
    }

    lemma WasExamined(r: Record, d: Detection, b: Bytes)
      requires Examined(b, Ok(d)) in client.log && d.kind == r.detected
      ensures Seen(client.log, b, r.detected) && (d.mismatch ==> SeenMismatch(client.log, b))
      ensures Warns(r, d) ==> Examination(client.log, r, b) && (Mismatch in r.warnings <==> d.mismatch)
    {
    }

    /** `processArchiveFile` */
    method ProcessMember(
      ctx: Context, physical: Path, source: Path, p: Path, container: string, directory: string, attachment: string,
      parent: string,
      ghost c: nat, ghost z: Bytes, ghost f: Member, ghost rel: Path, ghost b: Bytes, ghost names: set<string>
    ) returns (exit: Option<Exit>)
      requires Going(names) && nextID == |files|
      requires ContainerAt(lib, files, bytes, c, parent, attachment, container, directory, z)
      requires f in lib.parse(z).value && MemberAs(lib, f, source, b, p)
      requires Stored(Room(), names, rel, b) && physical == staging.path + rel && WorkFits(RecordId(nextID + 1), names)
      requires SafeComponent(directory) && p != [] && AllSafe(p) && Creatable([directory] + p)
      requires FreshOut(files, [directory] + p)
      modifies this`nextID, this`files, this`bytes, this`extracted, meter, ctx, fs, fs.disk, client
      ensures Since(exit, ctx, names)
      ensures exit.None? ==> Entered() && nextID == |files|
      ensures exit.None? ==>
        About(files[|old(files)|]) == Inside(Envelope(parent, attachment, container), Content(source, |b|, lib.sha(b)))
      ensures exit.None? && IsOut(files[|old(files)|]) ==> Out(files[|old(files)|]) == [directory] + p
    {
      hide Going, Sane, Now, Stored, Sub, WorkFits, NfcKeepsSafe, ValidConfig, Vouched, FreshOut, Creatable, AllSafe,
        SourceOf, SafeComponent, ContainerAt, OutputPath, ApprovedPath, Provenance, Nfc, RecordId, Draft;
      GoingFacts(names);
      var digest, size;
      digest, size, exit := HashFile(ctx, physical, rel, b, names);
      if exit.None? {
        MemberProvenance(lib, files, bytes, c, parent, attachment, container, directory, z, f, b);
        var record := NewFile(Some(parent), attachment, container + "!" + Join(source), FromArchive, size, digest);
        MemberDrafted(record, b, [directory] + p);
        exit := AdmitMember(ctx, physical, record, directory, p, rel, b, names);
      }
      GoingSane(names);
    }

    /** The exclusion lists, and then the member itself. */
    method AdmitMember(
      ctx: Context, physical: Path, record: Record, directory: string, p: Path,
      ghost rel: Path, ghost b: Bytes, ghost names: set<string>
    ) returns (exit: Option<Exit>)
      requires Going(names) && |bytes| == |files| && Draft(lib, files, bytes, record, b, [directory] + p)
      requires Stored(Room(), names, rel, b) && physical == staging.path + rel && WorkFits(record.id, names)
      requires record.shape.PlainFile? && record.warnings == [] && record.origin.FromArchive?
      requires SafeComponent(directory) && p != [] && AllSafe(p) && Creatable([directory] + p)
      requires FreshOut(files, [directory] + p)
      modifies this`files, this`bytes, this`extracted, meter, ctx, fs, fs.disk, client
      ensures Since(exit, ctx, names)
      ensures exit.None? ==> Entered() && About(files[|old(files)|]) == About(record)
      ensures exit.None? && IsOut(files[|old(files)|]) ==> Out(files[|old(files)|]) == [directory] + p
    {
      hide OutputName, Going, Sane, Now, Stored, Sub, WorkFits, NfcKeepsSafe, ValidConfig, FreshOut, Creatable, AllSafe,
        SafeComponent, Draft, Keep;
      var reason := ExclusionReason(cfg.excludes(p));
      if reason.Some? {
        exit := None;
        Reject(record, reason.value, b, [directory] + p, names);
      } else {
        exit := JudgeMember(ctx, physical, record, directory, p, rel, b, names);
      }
      GoingSane(names);
    }

    /** The record of a member, as it has just been opened. */
    lemma MemberDrafted(record: Record, b: Bytes, out: Path)
      requires |bytes| == |files| && record.id == RecordId(|files| + 1) && record.size == |b|
      requires record.sha == lib.sha(b)
      requires Provenance(lib, files, bytes, record.origin, record.parent, record.attachment, record.source, b, out)
      ensures Draft(lib, files, bytes, record, b, out)
    {
    }

    /** Screening a member and copying it out. */
    method JudgeMember(
      ctx: Context, physical: Path, record: Record, directory: string, p: Path,
      ghost rel: Path, ghost b: Bytes, ghost names: set<string>
    ) returns (exit: Option<Exit>)
      requires Admitted(lib, cfg, record, [directory] + p)
      requires Going(names) && |bytes| == |files| && Draft(lib, files, bytes, record, b, [directory] + p)
      requires Stored(Room(), names, rel, b) && physical == staging.path + rel && WorkFits(record.id, names)
      requires record.shape.PlainFile? && record.warnings == [] && record.origin.FromArchive?
      requires SafeComponent(directory) && p != [] && AllSafe(p) && Creatable([directory] + p)
      requires FreshOut(files, [directory] + p)
      modifies this`files, this`bytes, this`extracted, meter, ctx, fs, fs.disk, client
      ensures Since(exit, ctx, names)
      ensures exit.None? ==> Entered() && About(files[|old(files)|]) == About(record)
      ensures exit.None? && IsOut(files[|old(files)|]) ==> Out(files[|old(files)|]) == [directory] + p
    {
      hide OutputName, Going, Sane, Now, Stored, Sub, WorkFits, NfcKeepsSafe, ValidConfig, Vouched, FreshOut, Creatable,
        AllSafe, SafeComponent, OutputPath, ApprovedPath, Draft, Keep;
      OutputPathAccepted(directory, p);
      var out := [directory] + p;
      var r, passed;
      r, passed, exit := ScreenMember(ctx, physical, record, rel, b, out, names);
      if passed {
        StoredStill(ctx, names, rel, b);
        exit := CopyApproved(ctx, physical, OutputPath(directory, Join(p)), r, out, rel, b, names);
      }
      GoingSane(names);
    }

    /** Going through an archive, with the members at some paths already dealt with. */
    ghost predicate Unloading(a: Archive, at: Site, done: set<Path>, names: set<string>)
      reads this`files, this`bytes, this`nextID, staging, fs`m
    {
      && nextID == |files| && ContainerAt(lib, files, bytes, at.c, a.id, a.attachment, a.source, a.directory, at.z)
      && a.work in names && Sub(fs.m, staging.path + [a.work]) == at.t
      && a.directory == NumberedName(at.index, at.total, at.name) && SafeComponent(a.directory) && at.index < at.total
      && Creatable([a.directory])
      && TopsBelow(files[..at.c], at.index, at.total) && InDirectory(files, at.c, a.directory, done)
    }

    /** The names of work directories still to come are free. */
    ghost predicate IdsFree(n: nat, names: set<string>) {
      forall i: nat {:trigger RecordId(i)} :: i > n ==> WorkName(RecordId(i)) !in names
    }

    lemma NextWork(n: nat, names: set<string>)
      requires IdsFree(n, names) && n + 1 < Pow10(5)
      ensures WorkFits(RecordId(n + 1), names)
    {
      NamesApart(0, n + 1, n + 1);
      NamesFit(n + 1);
    }

    /** An unpacked file is in use like everything else in the work directory. */
    lemma UnpackedStored(a: Archive, at: Site, done: set<Path>, names: set<string>, p: Path)
      requires Unloading(a, at, done, names) && p in at.t && at.t[p].File?
      ensures Stored(Room(), names, [a.work] + p, at.t[p].data)
      ensures staging.path + ([a.work] + p) == staging.path + [a.work] + p
    {
      SubNested(fs.m, staging.path, [a.work]);
      assert ([a.work] + p)[0] == a.work;
    }

    /** Directories in use stay what they are. */
    twostate lemma WorkStays(ctx: Context, new work: string, new names: set<string>)
      requires Later(old(Now(ctx, names)), Now(ctx, names)) && work in names && staging.path == old(staging.path)
      ensures Sub(fs.m, staging.path + [work]) == old(Sub(fs.m, staging.path + [work]))
    {
      KeptSub(old(fs.m), fs.m, staging.path, work, names);
    }

    /** After one more record, with an output at most at one of some further paths. */
    twostate lemma UnloadedOne(
      ctx: Context, new a: Archive, new at: Site, new done: set<Path>, new names: set<string>, new extra: set<Path>
    )
      requires old(Unloading(a, at, done, names)) && Later(old(Now(ctx, names)), Now(ctx, names))
      requires staging.path == old(staging.path)
      requires Entered() && nextID == |files|
      requires IsOut(files[|old(files)|]) ==> exists p :: p in extra && Out(files[|old(files)|]) == [a.directory] + p
      ensures Unloading(a, at, done + extra, names)
    {
      hide Keep, Sub, Outside, SafeComponent, Creatable, TopsBelow, Now, InDirectory, ContainerAt, NumberedName, Later;
      WorkStays(ctx, a.work, names);
      var r, b := files[|old(files)|], bytes[|old(bytes)|];
      assert files == old(files) + [r] && bytes == old(bytes) + [b];
      ContainerIsHere(old(files), old(bytes), a, at);
      InDirectorySnoc(old(files), at.c, a.directory, done, r, extra);
      ContainerStays(lib, old(files), old(bytes), r, b, at.c, a.id, a.attachment, a.source, a.directory, at.z);
      assert files[..at.c] == old(files)[..at.c];
    }

    lemma ContainerIsHere(files: seq<Record>, bytes: seq<Bytes>, a: Archive, at: Site)
      requires ContainerAt(lib, files, bytes, at.c, a.id, a.attachment, a.source, a.directory, at.z)
      ensures at.c < |files| && |bytes| == |files|
    {
    }

    /** A member that the extraction has omitted. */
    method OmitItem(
      ghost ctx: Context, a: Archive, q: RejectedEntry, ghost x: Item, ghost sources: map<Path, Path>,
      ghost at: Site, ghost done: set<Path>, ghost names: set<string>
    )
      requires Going(names) && Unloading(a, at, done, names) && ItemGood(lib, at.z, at.t, sources, x)
      requires x.rejected == Some(q)
      modifies this`nextID, this`files, this`bytes
      ensures Going(names) && Entered() && Unloading(a, at, done, names)
      ensures About(files[|old(files)|]) == Inside(Wrapping(a), ItemContent(lib, at.t, sources, x))
    {
      assert nextID == |files| && ContainerAt(lib, files, bytes, at.c, a.id, a.attachment, a.source, a.directory, at.z);
      hide Going, Now, Sub, ItemGood, ContainerAt, InDirectory, Unloading;
      ghost var f := EntryMember(lib, at.z, at.t, sources, x);
      RejectEntry(q, a.source, a.attachment, a.id, at.c, a.directory, at.z, f, names);
      NothingDisturbed(ctx, names);
      UnloadedOne(ctx, a, at, done, names, {});
      assert done + {} == done;
    }

    /** A member that has been unpacked. */
    method JudgeItem(
      ctx: Context, a: Archive, x: Item, sources: map<Path, Path>, ghost at: Site, ghost done: set<Path>,
      ghost names: set<string>
    ) returns (exit: Option<Exit>)
      requires Going(names) && Unloading(a, at, done, names) && ItemGood(lib, at.z, at.t, sources, x)
      requires x.rejected.None?
      requires IdsFree(|files|, names) && |files| + 1 < Pow10(5)
      requires forall q :: q in done ==> Behind(q, x.path)
      modifies this`nextID, this`files, this`bytes, this`extracted, meter, ctx, fs, fs.disk, client
      ensures Since(exit, ctx, names)
      ensures exit.None? ==>
        Entered() && About(files[|old(files)|]) == Inside(Wrapping(a), ItemContent(lib, at.t, sources, x))
      ensures exit.None? ==> Unloading(a, at, done + {x.path}, names)
    {
      hide Going, Sane, Now, Sub, ItemGood, ContainerAt, FreshOut, TopsBelow, InDirectory, Unloading, SafeComponent,
        AllSafe, Creatable, Later, NumberedName, Pow10, IdsFree, WorkFits, Stored;
      UnloadingFacts(a, at, done, names);
      ItemFacts(lib, at.z, at.t, sources, x);
      ghost var f := FileMember(lib, at.z, at.t, sources, x);
      NextWork(|files|, names);
      UnpackedStored(a, at, done, names, x.path);
      FreshMember(files, files[..at.c], at.index, at.total, at.name, done, x.path);
      CreatableBelow(a.directory, x.path);
      var source := if x.path in sources then sources[x.path] else x.path;
      var physical := staging.path + [a.work] + x.path;
      exit := ProcessMember(ctx, physical, source, x.path, a.source, a.directory, a.attachment, a.id,
                            at.c, at.z, f, [a.work] + x.path, at.t[x.path].data, names);
      if exit.None? {
        UnloadedOne(ctx, a, at, done, names, {x.path});
      }
    }

    lemma UnloadingFacts(a: Archive, at: Site, done: set<Path>, names: set<string>)
      requires Unloading(a, at, done, names)
      ensures nextID == |files| && |bytes| == |files| && at.c <= |files|
      ensures ContainerAt(lib, files, bytes, at.c, a.id, a.attachment, a.source, a.directory, at.z)
      ensures a.directory == NumberedName(at.index, at.total, at.name) && SafeComponent(a.directory)
      ensures Creatable([a.directory]) && at.index < at.total
      ensures TopsBelow(files[..at.c], at.index, at.total) && InDirectory(files, at.c, a.directory, done)
      ensures |files[..at.c]| == at.c && files[..at.c] <= files
    {
    }

    lemma CreatableBelow(directory: string, p: Path)
      requires Creatable([directory]) && Creatable(p)
      ensures Creatable([directory] + p)
    {
      assert [directory][0] == directory;
    }

    /** One turn of the loop over the members of an archive. */
    method ProcessItem(
      ctx: Context, a: Archive, x: Item, sources: map<Path, Path>,
      ghost at: Site, ghost done: set<Path>, ghost names: set<string>
    ) returns (exit: Option<Exit>)
      requires Going(names) && Unloading(a, at, done, names) && ItemGood(lib, at.z, at.t, sources, x)
      requires IdsFree(|files|, names) && |files| + 1 < Pow10(5)
      requires x.rejected.None? ==> forall q :: q in done ==> Behind(q, x.path)
      modifies this`nextID, this`files, this`bytes, this`extracted, meter, ctx, fs, fs.disk, client
      ensures Since(exit, ctx, names)
      ensures exit.None? ==>
        Entered() && About(files[|old(files)|]) == Inside(Wrapping(a), ItemContent(lib, at.t, sources, x))
      ensures exit.None? ==> Unloading(a, at, done + if x.rejected.None? then {x.path} else {}, names)
    {
      hide Going, Sane, Now, Sub, ItemGood, Unloading, IdsFree, Pow10;
      GoingSane(names);
      exit := ContextFailure(ctx);
      Looked(ctx, names);
      if exit.None? {
        if x.rejected.Some? {
          OmitItem(ctx, a, x.rejected.value, x, sources, at, done, names);
          assert done + {} == done;
        } else {
          exit := JudgeItem(ctx, a, x, sources, at, done, names);
        }
      }
      GoingSane(names);
    }

    /** There is one record for each item, in order. */
    ghost predicate ItemsRecorded(
      a: Archive, t: Tree, sources: map<Path, Path>, items: seq<Item>, records: seq<Record>
    ) {
      && |records| == |items|
      && forall i :: 0 <= i < |items| ==>
        About(records[i]) == Inside(Wrapping(a), ItemContent(lib, t, sources, items[i]))
    }

    lemma ItemsEachOnce(a: Archive, z: Bytes, t: Tree, sources: map<Path, Path>, items: seq<Item>, records: seq<Record>)
      requires ItemsRecorded(a, t, sources, items, records) && Haul(lib, z, t, sources, items)
      ensures EachOnce(Wrapping(a), ContentsOf(lib, lib.parse(z).value), records)
    {
      hide ItemContent, ContentsOf, ItemGood;
      var contents := ItemContents(lib, t, sources, items);
      assert Map(About, records) == Map(c => Inside(Wrapping(a), c), contents);
      assert EachOnce(Wrapping(a), contents, records);
      EachOnceRearranged(lib, Wrapping(a), contents, ContentsOf(lib, lib.parse(z).value), records);
    }

    /** The loop over the members of an archive. */
    method ProcessMembers(
      ctx: Context, a: Archive, items: seq<Item>, sources: map<Path, Path>, ghost at: Site, ghost names: set<string>
    ) returns (exit: Option<Exit>)
      requires Going(names) && Unloading(a, at, {}, names) && Haul(lib, at.z, at.t, sources, items)
      requires IdsFree(|files|, names) && |files| + |items| < Pow10(5)
      modifies this`nextID, this`files, this`bytes, this`extracted, meter, ctx, fs, fs.disk, client
      ensures Since(exit, ctx, names)
      ensures exit.None? ==> |files| == |old(files)| + |items| && old(files) <= files && old(bytes) <= bytes
      ensures exit.None? ==> ItemsRecorded(a, at.t, sources, items, files[|old(files)|..])
      ensures exit.None? ==> Unloading(a, at, DoneWith(items), names)
    {
      hide Going, Sane, Now, Sub, ItemGood, Unloading, IdsFree, Pow10, Haul, DoneWith;
      GoingSane(names);
      exit := None;
      var i := 0;
      NothingDone(items);
      while i < |items| && exit.None?
        invariant 0 <= i <= |items|
        invariant Since(exit, ctx, names)
        invariant exit.None? ==> Unloading(a, at, DoneWith(items[..i]), names)
        invariant exit.None? ==> |files| == |old(files)| + i && old(files) <= files && old(bytes) <= bytes
        invariant exit.None? ==> ItemsRecorded(a, at.t, sources, items[..i], files[|old(files)|..])
      {
        ghost var front := files;
        HaulItem(lib, at.z, at.t, sources, items, i);
        FewerIds(|old(files)|, |files|, names);
        exit := ProcessItem(ctx, a, items[i], sources, at, DoneWith(items[..i]), names);
        DoneWithNext(items, i);
        if exit.None? {
          assert items[..i + 1] == items[..i] + [items[i]];
          assert files[|old(files)|..] == front[|old(files)|..] + [files[|front|]];
        }
        i := i + 1;
      }
      assert items[..|items|] == items;
    }

    lemma FewerIds(m: nat, n: nat, names: set<string>)
      requires IdsFree(m, names) && m <= n
      ensures IdsFree(n, names)
    {
    }

    // ----- Archives -----

    /** The policies on archives and on names that do not fit. */
    method AllowArchive(record: Record, d: Detection, ghost b: Bytes, ghost out: Path, ghost names: set<string>)
      returns (r: Record, rejected: bool)
      requires Going(names) && |bytes| == |files| && Draft(lib, files, bytes, record, b, out)
      requires record.warnings == [] && d.kind.ArchiveZip? && record.detected == d.kind && record.origin.Upload?
      requires Examined(b, Ok(d)) in client.log
      modifies this`files, this`bytes
      ensures Going(names) && r == record.(warnings := r.warnings)
      ensures rejected ==> Declined(record)
      ensures !rejected ==> files == old(files) && bytes == old(bytes) && Draft(lib, files, bytes, r, b, out)
      ensures !rejected ==> cfg.archives && cfg.zipAllowed && Warns(r, d) && !(cfg.rejectMismatch && d.mismatch)
    {
      WasExamined(record, d, b);
      NotSupported(record, b);
      hide *;
      r, rejected := record, true;
      if !cfg.archives || !cfg.zipAllowed {
        Reject(record, FromZip(Unsupported), b, out, names);
      } else {
        r, rejected := ApplyExtensionPolicy(record, d, b, out, names);
        ArchiveWarned(r, d);
      }
    }

    /** The checks of `processArchive` before anything is unpacked. */
    method ScreenArchive(
      ctx: Context, src: Path, record: Record, d: Detection, ghost rel: Path, ghost b: Bytes, ghost out: Path,
      ghost names: set<string>
    ) returns (r: Record, limits: Limits, found: nat, passed: bool, exit: Option<Exit>)
      requires Going(names) && |bytes| == |files| && Draft(lib, files, bytes, record, b, out)
      requires Stored(Room(), names, rel, b) && src == staging.path + rel
      requires record.warnings == [] && d.kind.ArchiveZip? && record.detected == d.kind
      requires Examined(b, Ok(d)) in client.log
      requires archiveFiles == |files| - CountUploads(files) && record.origin.Upload?
      modifies this`files, this`bytes, ctx, fs`faults, client
      ensures Since(exit, ctx, names)
      ensures passed ==> exit.None? && files == old(files) && bytes == old(bytes)
      ensures old(client.log) <= client.log
      ensures passed ==> Draft(lib, files, bytes, r, b, out) && r == record.(warnings := r.warnings)
      ensures passed ==> Inspected(b, limits, found) && inputFiles + archiveFiles + found <= cfg.maxDiscovered
      ensures passed ==> Cleared(client.log, b) && cfg.archives && cfg.zipAllowed
      ensures passed ==> Warns(r, d) && !(cfg.rejectMismatch && d.mismatch)
      ensures !passed && exit.None? ==> Declined(record)
    {
      WasExamined(record, d, b);
      hide Going, Sane, Now, Draft, Stored, Sub, Inspected, Judged, NfcKeepsSafe, ValidConfig, Seen, SeenMismatch,
        CountUploads, Warns, Examination;
      limits, found, passed, exit := LimitsFor(cfg, 0), 0, false, None;
      var rejected;
      r, rejected := AllowArchive(record, d, b, out, names);
      if !rejected {
        limits, found, passed, exit := InspectArchive(ctx, src, r, rel, b, out, names);
      }
      GoingSane(names);
    }

    /** Archives that the configuration does not allow are refused. */
    lemma NotSupported(record: Record, b: Bytes)
      requires |bytes| == |files| && record.origin.Upload? && record.detected.ArchiveZip?
      requires Seen(client.log, b, record.detected)
      ensures !cfg.archives || !cfg.zipAllowed ==>
        Reasoned(lib, cfg, client.log, files, bytes, RejectedFor(record, FromZip(Unsupported)), b)
      ensures InSchema(FromZip(Unsupported)) && forall p :: ListedAs(cfg, p, Some(FromZip(Unsupported)))
    {
      hide Seen;
    }

    /** An archive is warned about only if its name does not fit. */
    lemma ArchiveWarned(r: Record, d: Detection)
      requires r.origin.Upload? && d.kind.ArchiveZip? && r.warnings == if d.mismatch then [Mismatch] else []
      ensures Warns(r, d)
    {
    }

    /** The malware scan of a container leaves what its inspection has found. */
    method ScanInspected(
      ctx: Context, src: Path, limits: Limits, found: nat, ghost rel: Path, ghost b: Bytes, ghost names: set<string>
    ) returns (reason: Option<Reason>, exit: Option<Exit>)
      requires Going(names) && Stored(Room(), names, rel, b) && src == staging.path + rel && Inspected(b, limits, found)
      modifies ctx, client, fs`faults
      ensures Since(exit, ctx, names) && old(client.log) <= client.log && Inspected(b, limits, found)
      ensures exit.None? && reason.None? ==> Cleared(client.log, b)
      ensures reason.Some? ==> MalwareReason(cfg, client.log, reason.value, b)
    {
      hide Going, Sane, Now, Stored, Sub, Inspected, Judged;
      reason, exit := ScanMalware(ctx, src, rel, b, names);
      StillInspected(b, limits, found);
    }

    method InspectArchive(
      ctx: Context, src: Path, record: Record, ghost rel: Path, ghost b: Bytes, ghost out: Path,
      ghost names: set<string>
    ) returns (limits: Limits, found: nat, passed: bool, exit: Option<Exit>)
      requires Going(names) && |bytes| == |files| && Draft(lib, files, bytes, record, b, out)
      requires Stored(Room(), names, rel, b) && src == staging.path + rel
      requires record.detected.ArchiveZip? && record.origin.Upload? && Seen(client.log, b, record.detected)
      requires archiveFiles == |files| - CountUploads(files)
      modifies this`files, this`bytes, ctx, fs`faults, client
      ensures Since(exit, ctx, names) && old(client.log) <= client.log
      ensures passed ==> exit.None? && files == old(files) && bytes == old(bytes)
      ensures passed ==> Inspected(b, limits, found) && inputFiles + archiveFiles + found <= cfg.maxDiscovered
      ensures passed ==> Cleared(client.log, b)
      ensures !passed && exit.None? ==> Declined(record)
    {
      hide Going, Sane, Now, Draft, Stored, Sub, Inspected, Judged, NfcKeepsSafe, ValidConfig, Seen, JudgedPath,
        CountUploads;
      ghost var log := client.log;
      limits, found, passed, exit := PreflightContainer(ctx, src, record, true, rel, b, out, names);
      if passed {
        var reason;
        SeenLater(log, client.log, b, record.detected);
        log := client.log;
        reason, exit := ScanInspected(ctx, src, limits, found, rel, b, names);
        SeenLater(log, client.log, b, record.detected);
        passed := exit.None? && reason.None?;
        if exit.None? && reason.Some? {
          Reject(record, reason.value, b, out, names);
        }
      }
      GoingSane(names);
    }

    /** `Staging.Mkdir` for the directory of an archive. */
    method MakeTop(ctx: Context, directory: string, ghost names: set<string>) returns (exit: Option<Exit>)
      requires Going(names) && |bytes| == |files|
      requires ApprovedPath(directory) == Some([directory]) && Creatable([directory]) && FreshOut(files, [directory])
      modifies fs
      ensures Sane() && Later(old(Now(ctx, names)), Now(ctx, names))
      ensures APPROVED !in names && (fs.faults == base ==> Tidy(Room(), names))
      ensures exit.None? ==> staging.Open() && Output() == WithDirs(old(Output()), [directory]) && OutputSaved()
      ensures exit.Some? ==> Blamed(exit.value, ctx)
    {
      hide Going, Sane, Now, Ledger, Agree, Traced, Sub, Outside, FreshOut, FreeSlot, WithDirs, WayClear,
        CanCreate, OpenDirs, Creatable, ApprovedPath, Tidy, NfcKeepsSafe, ValidConfig, SomeDirsAdded, Unwatched, Saved;
      GoingFacts(names);
      SlotReady([directory], names);
      GoingBooks(names);
      ghost var t := Output();
      var ok := staging.Mkdir(directory);
      exit := if ok then None else Some(FilesystemExit);
      SavedDirs(t, staging.Area(), [directory], fs.disk.flushed);
      TracedDirs(t, Output(), [directory], client.log);
      AreaUsed(ctx, names);
    }

    /** The directory of an archive, and its record. */
    method ExpandOut(ctx: Context, directory: string, record: Record, ghost b: Bytes, ghost names: set<string>)
      returns (exit: Option<Exit>)
      requires Going(names) && |bytes| == |files| && Draft(lib, files, bytes, record, b, [directory])
      requires record.shape.Container?
      requires ApprovedPath(directory) == Some([directory]) && Creatable([directory]) && FreshOut(files, [directory])
      requires Vouched(lib, cfg, client.log, ApprovedAt(record, [directory], Expanded), b)
      modifies this`files, this`bytes, fs
      ensures Since(exit, ctx, names)
      ensures exit.None? ==>
        files == old(files) + [ApprovedAt(record, [directory], Expanded)] && bytes == old(bytes) + [b]
    {
      hide Going, Sane, Now, Ledger, Agree, Traced, Sub, Outside, FreshOut, WithDirs, OpenDirs, Creatable, ApprovedPath,
        Draft, Vouched, Tidy;
      GoingBooks(names);
      ghost var t := Output();
      exit := MakeTop(ctx, directory, names);
      if exit.None? {
        Approve(record, [directory], Expanded, b, t);
        assert Output() == WithOutput(t, ApprovedAt(record, [directory], Expanded), b);
        Rebooked(names);
      }
    }

    /** Unpacking an archive; its members are discovered only once that has worked. */
    method UnpackArchive(
      ctx: Context, src: Path, record: Record, x: string, limits: Limits, found: nat,
      ghost rel: Path, ghost b: Bytes, ghost out: Path, ghost names: set<string>
    ) returns (items: seq<Item>, sources: map<Path, Path>, unpacked: bool, exit: Option<Exit>)
      requires Going(names) && |bytes| == |files| && Draft(lib, files, bytes, record, b, out)
      requires Stored(Room(), names, rel, b) && src == staging.path + rel && Inspected(b, limits, found)
      requires x !in names && x != APPROVED && Normal(x) && ByteLen(x) <= MAX_COMPONENT
      requires inputFiles + archiveFiles + found <= cfg.maxDiscovered
      requires record.detected.ArchiveZip? && record.origin.Upload? && Seen(client.log, b, record.detected)
      modifies this`files, this`bytes, this`extracted, this`archiveFiles, meter, ctx, fs, client
      ensures old(client.log) <= client.log
      ensures Sane() && Later(old(Now(ctx, names)), Now(ctx, names))
      ensures unpacked ==>
        exit.None? && files == old(files) && bytes == old(bytes) && archiveFiles == old(archiveFiles) + found
      ensures unpacked ==> Going(names + {x}) && CleanContainer(lib, cfg, b) && lib.parse(b).Some?
      ensures unpacked ==> |items| == found && Haul(lib, b, Sub(fs.m, staging.path + [x]), sources, items)
      ensures unpacked ==> OpenDirs(Sub(fs.m, staging.path + [x]))
      ensures !unpacked ==> Since(exit, ctx, names) && archiveFiles == old(archiveFiles)
      ensures !unpacked && exit.None? ==> Declined(record)
    {
      hide Going, Sane, Now, Draft, Stored, Sub, Outside, ExtractedAs, OpenDirs, CleanContainer, NfcKeepsSafe,
        ValidConfig, Haul, Items, Sort, CountFiles, Seen, RefusedWithin;
      GoingFacts(names);
      ghost var n := cfg.maxExtractedTotal - extracted;
      assert limits == LimitsFor(cfg, n) && lib.parse(b).Some? && found == CountFiles(lib.parse(b).value);
      items, sources, unpacked, exit := [], map[], false, None;
      ghost var nodes;
      var r;
      r, nodes := Unpack(ctx, src, x, limits, rel, b, found, names);
      hide Inspected, LimitsFor;
      if r.Failed? {
        exit := ArchiveFailure(ctx, record, r.code, b, out, names);
      } else {
        Unpacked(lib, cfg, b, n, nodes, r, Sub(fs.m, staging.path + [x]));
        ExtractedHaul(lib, b, nodes, r, Sub(fs.m, staging.path + [x]), LimitsFor(cfg, n));
        items, sources, unpacked := Sort(ItemAtMost, Items(r.files, r.stats.rejected)), r.stats.sourcePaths, true;
        Discovered(found, names + {x});
      }
    }

    /** Members that have been unpacked count as discovered. */
    method Discovered(found: nat, ghost names: set<string>)
      requires Going(names) && inputFiles + archiveFiles + found <= cfg.maxDiscovered
      modifies this`archiveFiles
      ensures Going(names) && Sane() && archiveFiles == old(archiveFiles) + found
    {
      hide Going, Sane, Ledger, Agree, Traced, Sub;
      GoingBooks(names);
      GoingFacts(names);
      archiveFiles := archiveFiles + found;
      StillGoing(names);
      GoingSane(names);
    }

    /** Leaving more entries alone is leaving fewer alone. */
    twostate lemma FewerKept(ctx: Context, new names: set<string>, new more: set<string>)
      requires Later(old(Now(ctx, more)), Now(ctx, more)) && names <= more
      ensures Later(old(Now(ctx, names)), Now(ctx, names))
    {
      KeepFewer(old(Room()), Room(), names, more);
    }

    /** The record of an archive, once entered, is the parent of its members. */
    lemma ArchiveEntered(
      a: Archive, at: Site, front: seq<Record>, frontBytes: seq<Bytes>, record: Record, names: set<string>
    )
      requires files == front + [ApprovedAt(record, [a.directory], Expanded)] && bytes == frontBytes + [at.z]
      requires |frontBytes| == |front|
      requires at.c == |front| && nextID == |files| && lib.parse(at.z).Some? && record.origin.Upload?
      requires a.id == record.id && a.attachment == record.attachment && a.source == record.source
      requires a.work in names && Sub(fs.m, staging.path + [a.work]) == at.t
      requires a.directory == NumberedName(at.index, at.total, at.name) && SafeComponent(a.directory)
      requires Creatable([a.directory]) && at.index < at.total
      requires TopsBelow(front, at.index, at.total)
      ensures Unloading(a, at, {}, names)
    {
      assert files[at.c] == ApprovedAt(record, [a.directory], Expanded) && bytes[at.c] == at.z;
      assert files[..at.c] == front;
    }

    /** The directory of an archive, its record and its members. */
    method Fill(
      ctx: Context, a: Archive, record: Record, items: seq<Item>, sources: map<Path, Path>, ghost at: Site,
      ghost names: set<string>
    ) returns (exit: Option<Exit>)
      requires Going(names) && a.work in names && nextID == |files| + 1 && |bytes| == |files|
      requires Draft(lib, files, bytes, record, at.z, [a.directory]) && record.shape.Container? && record.origin.Upload?
      requires Vouched(lib, cfg, client.log, ApprovedAt(record, [a.directory], Expanded), at.z)
      requires a.id == record.id && a.attachment == record.attachment && a.source == record.source
      requires lib.parse(at.z).Some? && at.c == |files| && at.t == Sub(fs.m, staging.path + [a.work])
      requires Haul(lib, at.z, at.t, sources, items)
      requires IdsFree(|files| + 1, names) && |files| + 1 + |items| < Pow10(5)
      requires a.directory == NumberedName(at.index, at.total, at.name) && TopsBelow(files, at.index, at.total)
      requires at.index < at.total
      requires SafeComponent(a.directory) && Creatable([a.directory])
      requires ApprovedPath(a.directory) == Some([a.directory])
      modifies this`nextID, this`files, this`bytes, this`extracted, meter, ctx, fs, fs.disk, client
      ensures Since(exit, ctx, names)
      ensures exit.None? ==> nextID == |files| && |files| == |old(files)| + 1 + |items|
      ensures exit.None? ==> OneUpload(lib, old(files), old(bytes), files, bytes, About(record))
      ensures exit.None? ==> Under(files, |old(files)|, a.directory, Expanded)
    {
      hide Going, Sane, Now, Draft, Sub, Haul, IdsFree, Pow10, Unloading, Vouched, Creatable, SafeComponent, TopsBelow,
        FreshOut, ApprovedPath, Keep, Under, InDirectory, NumberedName;
      ghost var front, frontBytes := files, bytes;
      FreshTop(files, at.index, at.total, at.name, []);
      assert [a.directory] + [] == [a.directory];
      exit := ExpandOut(ctx, a.directory, record, at.z, names);
      if exit.None? {
        WorkStays(ctx, a.work, names);
        ArchiveEntered(a, at, front, frontBytes, record, names);
        exit := ProcessMembers(ctx, a, items, sources, at, names);
      }
      if exit.None? {
        UnloadedUnder(a, at, DoneWith(items), names);
        ItemsEachOnce(a, at.z, at.t, sources, items, files[|front| + 1..]);
        ArchiveBlock(a, at, front, frontBytes, record);
      }
    }

    /** The records of an archive and of its members are one block. */
    lemma ArchiveBlock(a: Archive, at: Site, front: seq<Record>, frontBytes: seq<Bytes>, record: Record)
      requires front + [ApprovedAt(record, [a.directory], Expanded)] <= files && frontBytes + [at.z] <= bytes
      requires |frontBytes| == |front| && |bytes| == |files| && record.origin.Upload? && lib.parse(at.z).Some?
      requires a.id == record.id && a.attachment == record.attachment && a.source == record.source
      requires EachOnce(Wrapping(a), ContentsOf(lib, lib.parse(at.z).value), files[|front| + 1..])
      ensures OneUpload(lib, front, frontBytes, files, bytes, About(record))
    {
      hide EachOnce, ContentsOf;
      assert files[|front|] == ApprovedAt(record, [a.directory], Expanded) && bytes[|front|] == at.z;
      assert files[|front| + 1..|files|] == files[|front| + 1..];
    }

    lemma UnloadedUnder(a: Archive, at: Site, done: set<Path>, names: set<string>)
      requires Unloading(a, at, done, names)
      ensures nextID == |files| && |bytes| == |files| && Under(files, at.c, a.directory, Expanded)
    {
      InDirectoryUnder(files, at.c, a.directory, done);
    }

    /** The second half of `processArchive`: the members, then cleaning up. */
    method Deliver(
      ctx: Context, a: Archive, record: Record, items: seq<Item>, sources: map<Path, Path>, ghost at: Site,
      ghost names: set<string>
    ) returns (exit: Option<Exit>)
      requires Going(names + {a.work}) && a.work !in names && a.work != APPROVED && nextID == |files| + 1
      requires |bytes| == |files|
      requires OpenDirs(at.t)
      requires Draft(lib, files, bytes, record, at.z, [a.directory]) && record.shape.Container? && record.origin.Upload?
      requires Vouched(lib, cfg, client.log, ApprovedAt(record, [a.directory], Expanded), at.z)
      requires a.id == record.id && a.attachment == record.attachment && a.source == record.source
      requires lib.parse(at.z).Some? && at.c == |files| && at.t == Sub(fs.m, staging.path + [a.work])
      requires Haul(lib, at.z, at.t, sources, items)
      requires IdsFree(|files| + 1, names + {a.work}) && |files| + 1 + |items| < Pow10(5)
      requires a.directory == NumberedName(at.index, at.total, at.name) && TopsBelow(files, at.index, at.total)
      requires at.index < at.total
      requires SafeComponent(a.directory) && Creatable([a.directory])
      requires ApprovedPath(a.directory) == Some([a.directory])
      modifies this`nextID, this`files, this`bytes, this`extracted, meter, ctx, fs, fs.disk, client
      ensures Since(exit, ctx, names)
      ensures exit.None? ==> nextID == |files| && |files| == |old(files)| + 1 + |items|
      ensures exit.None? ==> OneUpload(lib, old(files), old(bytes), files, bytes, About(record))
      ensures exit.None? ==> Under(files, |old(files)|, a.directory, Expanded)
    {
      hide Going, Sane, Now, Draft, Sub, OpenDirs, Haul, IdsFree, Pow10, Vouched, Creatable, SafeComponent, TopsBelow,
        FreshOut, ApprovedPath, Keep, Under, InDirectory, NumberedName;
      exit := Fill(ctx, a, record, items, sources, at, names + {a.work});
      FewerKept(ctx, names, names + {a.work});
      if exit.None? {
        WorkStays(ctx, a.work, names + {a.work});
        exit := RemoveWork(ctx, a.work, names);
      }
    }

    // ----- Uploads -----

    /** The draft of an upload does not depend on where it would go. */
    lemma UploadDraft(record: Record, b: Bytes, out: Path, other: Path)
      requires |bytes| == |files| && Draft(lib, files, bytes, record, b, out) && record.origin.Upload?
      ensures Draft(lib, files, bytes, record, b, other)
    {
    }

    /** What the scan of a batch has come to when it turns to one upload. */
    ghost predicate AtUpload(index: nat, total: nat, names: set<string>)
      reads this`files, this`archiveFiles
    {
      && index < total == inputFiles && ValidConfig(cfg) && inputFiles + archiveFiles <= cfg.maxDiscovered
      && |files| == index + archiveFiles && CountUploads(files) == index && TopsBelow(files, index, total)
      && AllTitled(lib, files, total) && IdsFree(|files|, names)
    }

    lemma RoomForRecords(index: nat, total: nat, names: set<string>)
      requires AtUpload(index, total, names)
      ensures WorkFits(RecordId(|files| + 1), names) && index < total < Pow10(5)
    {
      RecordBound();
      NextWork(|files|, names);
    }

    lemma RecordBound()
      ensures Pow10(5) == 100000
    {
    }

    /** Once an archive has its work directory, the names of further ones are still free. */
    lemma IdsStillFree(n: nat, names: set<string>)
      requires IdsFree(n, names)
      ensures IdsFree(n + 1, names + {WorkName(RecordId(n + 1))})
    {
      forall i: nat | i > n + 1
        ensures WorkName(RecordId(i)) !in names + {WorkName(RecordId(n + 1))}
      {
        NamesApart(0, i, n + 1);
      }
    }

    /** There is room for the work directory of an archive and for the records of its members. */
    lemma RoomForMembers(index: nat, total: nat, found: nat, names: set<string>)
      requires AtUpload(index, total, names) && inputFiles + archiveFiles + found <= cfg.maxDiscovered
      ensures WorkFits(RecordId(|files| + 1), names) && TopsBelow(files, index, total) && index < total
      ensures |files| + 1 + found < Pow10(5) && |files| == index + archiveFiles
      ensures IdsFree(|files| + 1, names + {WorkName(RecordId(|files| + 1))})
    {
      hide TopsBelow, IdsFree, WorkName, RecordId, Pow10, CountUploads, AllTitled;
      AtUploadFacts(index, total, names);
      RoomForRecords(index, total, names);
      IdsStillFree(|files|, names);
      RecordBound();
    }

    /** `processArchive` */
    method ProcessArchive(
      ctx: Context, src: Path, index: nat, total: nat, name: string, d: Detection, record: Record,
      ghost rel: Path, ghost b: Bytes, ghost names: set<string>
    ) returns (exit: Option<Exit>)
      requires Admitted(lib, cfg, record, [])
      requires Going(names) && |bytes| == |files| && nextID == |files| + 1 && Draft(lib, files, bytes, record, b, [])
      requires Stored(Room(), names, rel, b) && src == staging.path + rel
      requires record.warnings == [] && d.kind.ArchiveZip? && record.detected == d.kind && record.shape.Container?
      requires record.origin.Upload? && record.size <= cfg.maxInputFileSize
      requires AtUpload(index, total, names)
      requires Examined(b, Ok(d)) in client.log
      modifies this`nextID, this`files, this`bytes, this`extracted, this`archiveFiles, meter, ctx, fs, fs.disk, client
      ensures Since(exit, ctx, names)
      ensures exit.None? ==> nextID == |files| && |files| - |old(files)| == 1 + archiveFiles - old(archiveFiles)
      ensures exit.None? ==> OneUpload(lib, old(files), old(bytes), files, bytes, About(record))
      ensures exit.None? ==>
        Under(files, |old(files)|, NumberedName(index, total, ArchiveDirectory(lib, name)), Expanded)
    {
      hide OutputName, Going, Sane, Now, Draft, Stored, Sub, ArchiveDirectory, NumberedName, Creatable, ApprovedPath,
        SafeComponent, Inspected, TopsBelow, IdsFree, AtUpload, WorkFits, CleanContainer, Judged, Haul, OpenDirs,
        Under, OneUpload, Seen, CountUploads, Warns, Examination;
      var directory := NumberedName(index, total, ArchiveDirectory(lib, name));
      RoomForRecords(index, total, names);
      ArchiveDirectoryKept(lib, name);
      TopAccepted(index, total, ArchiveDirectory(lib, name));
      UploadDraft(record, b, [], [directory]);
      AtUploadFacts(index, total, names);
      ghost var log := client.log;
      var r, limits, found, passed;
      r, limits, found, passed, exit := ScreenArchive(ctx, src, record, d, rel, b, [directory], names);
      if passed {
        StillThere(log, client.log, Examined(b, Ok(d)));
        WasExamined(r, d, b);
        exit := UnpackAndDeliver(ctx, src, index, total, name, directory, r, limits, found, rel, b, names);
      } else if exit.None? {
        NothingUnder(old(files), directory, Expanded);
        SingleBlock(old(files), old(bytes));
      }
      GoingSane(names);
    }

    /** A rejection puts nothing anywhere. */
    lemma NothingUnder(front: seq<Record>, directory: string, action: Action)
      requires |files| == |front| + 1 && front <= files && !IsOut(files[|front|])
      ensures Under(files, |front|, directory, action)
    {
    }

    /** Anything but an expanded upload is a block of its own. */
    lemma SingleBlock(front: seq<Record>, frontBytes: seq<Bytes>)
      requires |files| == |front| + 1 && front <= files && |bytes| == |frontBytes| + 1 && frontBytes <= bytes
      requires |frontBytes| == |front|
      requires files[|front|].origin.Upload? && (IsOut(files[|front|]) ==> !files[|front|].action.Expanded?)
      ensures OneUpload(lib, front, frontBytes, files, bytes, About(files[|front|]))
    {
      assert files[|front| + 1..] == [];
    }

    /** The rest of `processArchive`, once the archive has passed. */
    method UnpackAndDeliver(
      ctx: Context, src: Path, ghost index: nat, ghost total: nat, ghost name: string, directory: string,
      record: Record,
      limits: Limits, found: nat, ghost rel: Path, ghost b: Bytes, ghost names: set<string>
    ) returns (exit: Option<Exit>)
      requires Admitted(lib, cfg, record, [directory])
      requires Going(names) && |bytes| == |files| && nextID == |files| + 1
      requires Draft(lib, files, bytes, record, b, [directory])
      requires Stored(Room(), names, rel, b) && src == staging.path + rel && Inspected(b, limits, found)
      requires record.shape.Container? && record.origin.Upload? && record.size <= cfg.maxInputFileSize
      requires record.detected.ArchiveZip?
      requires Cleared(client.log, b) && cfg.archives && cfg.zipAllowed
      requires (cfg.rejectMismatch ==> Mismatch !in record.warnings)
      requires AtUpload(index, total, names) && inputFiles + archiveFiles + found <= cfg.maxDiscovered
      requires directory == NumberedName(index, total, ArchiveDirectory(lib, name)) && SafeComponent(directory)
      requires Creatable([directory]) && ApprovedPath(directory) == Some([directory])
      requires Seen(client.log, b, record.detected) && Examination(client.log, record, b)
      modifies this`nextID, this`files, this`bytes, this`extracted, this`archiveFiles, meter, ctx, fs, fs.disk, client
      ensures Since(exit, ctx, names)
      ensures exit.None? ==> nextID == |files| && |files| - |old(files)| == 1 + archiveFiles - old(archiveFiles)
      ensures exit.None? ==> OneUpload(lib, old(files), old(bytes), files, bytes, About(record))
      ensures exit.None? ==> Under(files, |old(files)|, directory, Expanded)
    {
      hide OutputName, Going, Sane, Now, Draft, Stored, Sub, ArchiveDirectory, NumberedName, Creatable, ApprovedPath,
        SafeComponent, Inspected, TopsBelow, IdsFree, CleanContainer, Judged, Haul, OpenDirs, Under, AtUpload,
        Vouched, LimitsFor, Pow10, Normal, OneUpload, ByteLen, RecordId, WorkName, ValidConfig, NfcKeepsSafe,
        Seen, CountUploads, Truthful, Counted, Examination, Declined, Keep, Room, Outside, Admitted, Blamed;
      RoomForMembers(index, total, found, names);
      DraftId(record, b, [directory]);
      var x := WorkName(record.id);
      ghost var log := client.log;
      var items, sources, unpacked;
      items, sources, unpacked, exit := UnpackArchive(ctx, src, record, x, limits, found, rel, b, [directory], names);
      if unpacked {
        StillVouched(log, record, directory, b);
        exit := DeliverUnpacked(ctx, index, total, name, directory, record, x, items, sources, b, names);
      } else if exit.None? {
        DeclinedBlock(record, directory);
      }
    }

    /** What has been unpacked goes to the directory of the archive. */
    method DeliverUnpacked(
      ctx: Context, ghost index: nat, ghost total: nat, ghost name: string, directory: string, record: Record,
      x: string, items: seq<Item>, sources: map<Path, Path>, ghost b: Bytes, ghost names: set<string>
    ) returns (exit: Option<Exit>)
      requires Going(names + {x}) && x !in names && x != APPROVED && nextID == |files| + 1 && |bytes| == |files|
      requires OpenDirs(Sub(fs.m, staging.path + [x]))
      requires Draft(lib, files, bytes, record, b, [directory]) && record.shape.Container? && record.origin.Upload?
      requires Vouched(lib, cfg, client.log, ApprovedAt(record, [directory], Expanded), b)
      requires lib.parse(b).Some? && Haul(lib, b, Sub(fs.m, staging.path + [x]), sources, items)
      requires IdsFree(|files| + 1, names + {x}) && |files| + 1 + |items| < Pow10(5)
      requires directory == NumberedName(index, total, ArchiveDirectory(lib, name)) && TopsBelow(files, index, total)
      requires index < total && SafeComponent(directory) && Creatable([directory])
      requires ApprovedPath(directory) == Some([directory])
      modifies this`nextID, this`files, this`bytes, this`extracted, meter, ctx, fs, fs.disk, client
      ensures Since(exit, ctx, names)
      ensures exit.None? ==> nextID == |files| && |files| == |old(files)| + 1 + |items|
      ensures exit.None? ==> OneUpload(lib, old(files), old(bytes), files, bytes, About(record))
      ensures exit.None? ==> Under(files, |old(files)|, directory, Expanded)
    {
      hide *;
      var a := Archive(record.id, record.attachment, record.source, directory, x);
      ghost var at := Site(|files|, b, Sub(fs.m, staging.path + [x]), index, total, ArchiveDirectory(lib, name));
      exit := Deliver(ctx, a, record, items, sources, at, names);
    }

    /** An archive that has been rejected is a block of its own. */
    twostate lemma DeclinedBlock(new record: Record, new directory: string)
      requires Declined(record) && |old(bytes)| == |old(files)| && record.origin.Upload?
      ensures |files| - |old(files)| == 1
      ensures OneUpload(lib, old(files), old(bytes), files, bytes, About(record))
      ensures Under(files, |old(files)|, directory, Expanded)
    {
      NothingUnder(old(files), directory, Expanded);
      hide Under, OneUpload;
      SingleBlock(old(files), old(bytes));
    }

    /** What was known of an archive before it was unpacked still is. */
    lemma StillVouched(log: Journal, record: Record, directory: string, b: Bytes)
      requires log <= client.log && Admitted(lib, cfg, record, [directory]) && record.origin.Upload?
      requires record.size <= cfg.maxInputFileSize && record.detected.ArchiveZip? && cfg.archives && cfg.zipAllowed
      requires cfg.rejectMismatch ==> Mismatch !in record.warnings
      requires Cleared(log, b) && Seen(log, b, record.detected) && Examination(log, record, b)
      requires CleanContainer(lib, cfg, b)
      ensures Vouched(lib, cfg, client.log, ApprovedAt(record, [directory], Expanded), b)
    {
      hide Judged, Seen, Examination, CleanContainer, NothingOmitted, OutputName, Vouched, Admitted;
      JudgedLater(log, client.log, b, Clamd.Clean);
      SeenLater(log, client.log, b, record.detected);
      ExaminationLater(log, client.log, record, b);
      ArchiveVouched(lib, cfg, client.log, record, [directory], b);
    }

    lemma AtUploadFacts(index: nat, total: nat, names: set<string>)
      requires AtUpload(index, total, names)
      ensures TopsBelow(files, index, total) && IdsFree(|files|, names)
      ensures |files| == index + archiveFiles && CountUploads(files) == index
      ensures index < total == inputFiles && inputFiles + archiveFiles <= cfg.maxDiscovered <= HARD_MAX_FILE_COUNT
    {
    }

    lemma DraftId(record: Record, b: Bytes, out: Path)
      requires |bytes| == |files| && Draft(lib, files, bytes, record, b, out)
      ensures record.id == RecordId(|files| + 1)
    {
    }

    // ----- Snapshots -----

    lemma EntryWritable(x: string)
      requires Going({}) && x != APPROVED && Normal(x) && ByteLen(x) <= MAX_COMPONENT
      ensures Sane() && Unwatched(fs, staging.path) && base <= fs.faults
      ensures fs.faults == base ==> CanCreateIn(Room(), [x])
    {
      assert Look(true);
      if fs.faults == base {
        EntryFreeIn(Room(), x, {});
      }
    }

    /** An attempt to write a file into an entry touches that entry only. */
    twostate lemma EntryFilled(new x: string, new content: Bytes, new ok: bool)
      requires Within(fs, staging.path) && staging.path == old(staging.path)
      requires ok ==> Room() == old(Room())[[x] := File(PRIVATE_FILE, content)]
      requires !ok ==> FillLeft(old(Room()), Room(), [x], content)
      ensures Outside(fs.m, staging.path + [x]) == old(Outside(fs.m, staging.path + [x]))
      ensures Unwatched(fs, staging.path + [x])
      ensures ok ==> Stored(Room(), {x}, [x], content)
    {
      ApartBelow(fs.watch, staging.path, staging.path + [x]);
      var v := if [x] in Room() then Room()[[x]] else Dir(PRIVATE_DIR);
      EntryStored(old(fs.m), fs.m, staging.path, x, v);
    }

    /** Writing a file into a further entry of the staging directory. */
    method WriteEntry(ctx: Context, x: string, content: Bytes) returns (exit: Option<Exit>)
      requires Going({}) && x != APPROVED && Normal(x) && ByteLen(x) <= MAX_COMPONENT
      modifies ctx, fs, fs.disk
      ensures Sane() && Later(old(Now(ctx, {})), Now(ctx, {}))
      ensures exit.None? ==> Going({x}) && Stored(Room(), {x}, [x], content)
      ensures exit.Some? ==> Blamed(exit.value, ctx)
    {
      hide Going, Sane, Now, Sub, Outside, Tidy, CanCreateIn, Unwatched, FillLeft, Stored, ByteLen, Normal;
      EntryWritable(x);
      GoingFacts({});
      var ok := FillSlot(ctx, fs, staging.path, [x], content);
      exit := None;
      if !ok {
        var canceled := ctx.Err();
        exit := Some(if canceled then CanceledExit else FilesystemExit);
      }
      EntryFilled(x, content, ok);
      EntryUsed(ctx, x, {});
      assert {} + {x} == {x};
      GoingSane({x});
    }

    /** `snapshotInput` */
    method Snapshot(ctx: Context, file: InputFile, index: nat) returns (exit: Option<Exit>, ghost c: Bytes)
      requires Going({}) && index < Pow10(5)
      modifies ctx, fs, fs.disk
      ensures Sane() && Later(old(Now(ctx, {})), Now(ctx, {}))
      ensures exit.None? ==> Going({InputName(index)}) && Stored(Room(), {InputName(index)}, [InputName(index)], c)
      ensures exit.None? ==> Unchanged(lib, old(fs.m), file) && lib.sha(c) == file.sha && |c| == file.size
      ensures exit == Some(InputExit) ==> fs.faults > base || !Unchanged(lib, old(fs.m), file)
      ensures exit.Some? && exit != Some(InputExit) ==> Blamed(exit.value, ctx)
    {
      hide Going, Sane, Now, Stored, InputName, Pow10, NfcKeepsSafe, ValidConfig;
      var x := InputName(index);
      c := [];
      GoingFacts({});
      NamesApart(index, 0, 0);
      NamesFit(index);
      GoingSane({});
      var info := fs.Lstat(file.path);
      var data := fs.ReadFile(file.path);
      Looked(ctx, {});
      GoingSane({});
      if info != Present || data.None? {
        exit := Some(InputExit);
      } else {
        c := data.value[..Min(|data.value|, file.size + 1)];
        var content := data.value[..Min(|data.value|, file.size + 1)];
        exit := WriteEntry(ctx, x, content);
        if exit.None? && (|content| != file.size || lib.sha(content) != file.sha) {
          var dropped := RemoveSnapshot(ctx, x, c);
          exit := Some(InputExit);
        }
        WholeFile(data.value, file.size);
      }
    }

    lemma WholeFile(data: Bytes, size: nat)
      ensures |data[..Min(|data|, size + 1)]| == size ==> data[..Min(|data|, size + 1)] == data
      ensures |data| == size ==> data[..Min(|data|, size + 1)] == data
    {
    }

    /** Clearing an entry, even when the scan has already failed. */
    twostate lemma SaneStill(ctx: Context, new x: string)
      requires old(Sane()) && x != APPROVED
      requires Outside(fs.m, staging.path + [x]) == old(Outside(fs.m, staging.path + [x]))
      requires Unwatched(fs, staging.path + [x])
      requires fs.intact == old(fs.intact) && fs.faults >= old(fs.faults) && (old(ctx.done) ==> ctx.done)
      requires client.log == old(client.log) && archiveFiles == old(archiveFiles) && extracted == old(extracted)
      requires meter.total == old(meter.total)
      requires staging.done == old(staging.done) && staging.path == old(staging.path)
      ensures Sane() && Later(old(Now(ctx, {})), Now(ctx, {}))
    {
      assert old(Standing()) by {
        assert Look(true);
      }
      hide Sane, Traced, Sub, Outside, NfcKeepsSafe, ValidConfig, Keep, CanCreate, Unwatched;
      FurtherEntry(old(fs.m), fs.m, staging.path, x, {});
      EntryStanding(x);
      assert Standing();
      hide Standing;
      assert Later(old(Now(ctx, {})), Now(ctx, {}));
    }

    lemma SaneUnwatched(x: string)
      requires Sane()
      ensures Unwatched(fs, staging.path + [x])
    {
      assert Look(true);
      ApartBelow(fs.watch, staging.path, staging.path + [x]);
    }

    lemma SnapshotRemovable(x: string, c: Bytes)
      requires Going({x}) && Stored(Room(), {x}, [x], c)
      ensures base <= fs.faults
      ensures fs.faults == base ==> Unlinkable(fs.m, staging.path + [x])
    {
      assert Look(true);
      if fs.faults == base {
        EntryFileRemovable(fs.m, staging.path, x, {x}, c);
      }
    }

    /** `os.Remove` of a snapshot; also called when the scan has already failed. */
    method RemoveSnapshot(ctx: Context, x: string, ghost c: Bytes) returns (ok: bool)
      requires Sane() && x != APPROVED
      modifies fs
      ensures Sane() && Later(old(Now(ctx, {})), Now(ctx, {})) && fs.faults >= old(fs.faults)
      ensures old(Going({x})) && ok ==> Going({})
      ensures old(Going({x}) && Stored(Room(), {x}, [x], c)) && !ok ==> fs.faults > base
    {
      hide Going, Sane, Now, Unwatched, Sub, Stored;
      SaneUnwatched(x);
      if Going({x}) && Stored(Room(), {x}, [x], c) {
        SnapshotRemovable(x, c);
      }
      ok := RemoveAt(fs, staging.path + [x]);
      SaneStill(ctx, x);
      if old(Going({x})) && ok {
        assert {} + {x} == {x};
        EntryReleased(ctx, x, {});
      }
    }

    // ----- Uploads, continued -----

    /** `processUpload` */
    method ProcessUpload(
      ctx: Context, src: Path, index: nat, total: nat, name: string, record: Record,
      ghost rel: Path, ghost b: Bytes, ghost names: set<string>
    ) returns (exit: Option<Exit>)
      requires Admitted(lib, cfg, record, [])
      requires Going(names) && |bytes| == |files| && nextID == |files| + 1 && Draft(lib, files, bytes, record, b, [])
      requires Stored(Room(), names, rel, b) && src == staging.path + rel
      requires record.warnings == [] && record.shape.PlainFile? && record.origin.Upload?
      requires record.size <= cfg.maxInputFileSize
      requires AtUpload(index, total, names) && AllKept(name) && ByteLen(name) <= MAX_NAME
      requires name == OutputName(lib, record.source, MAX_NAME)
      modifies this`nextID, this`files, this`bytes, this`extracted, this`archiveFiles, meter, ctx, fs, fs.disk, client
      ensures Since(exit, ctx, names)
      ensures exit.None? ==> Advanced(old(files), old(bytes), index, total, About(record))
    {
      hide OutputName, Going, Sane, Now, Draft, Stored, Sub, AtUpload, ByteLen, AllKept, TopsBelow, NfcKeepsSafe,
        ValidConfig, NumberedName, ArchiveDirectory, Under, MAX_NAME, Advanced, OneUpload, CountUploads, Provenance;
      GoingFacts(names);
      var d, err := Detect(ctx, src, b, names);
      var r := record.(detected := d.kind, shape := if d.kind.ArchiveZip? then Container else PlainFile);
      SameDraft(record, r, b, []);
      if err.Some? {
        exit := DetectorFailure(ctx, r, err.value, b, [], names);
        if exit.None? {
          OneRejected(index, total, names);
        }
      } else if d.kind.ArchiveZip? {
        exit := ProcessArchive(ctx, src, index, total, name, d, r, rel, b, names);
        if exit.None? {
          AllUnder(index, total, ArchiveDirectory(lib, name), Expanded, names, About(record));
        }
      } else {
        exit := ProcessFile(ctx, src, index, total, name, d, r, rel, b, names);
      }
      GoingSane(names);
    }

    /** The scan has come past one upload, which `s` describes; what there was before is in front. */
    ghost predicate Advanced(front: seq<Record>, frontBytes: seq<Bytes>, index: nat, total: nat, s: Subject)
      reads this`nextID, this`files, this`bytes, this`archiveFiles
    {
      && nextID == |files| && |files| == index + 1 + archiveFiles && TopsBelow(files, index + 1, total)
      && AllTitled(lib, files, total) && CountUploads(files) == index + 1
      && OneUpload(lib, front, frontBytes, files, bytes, s)
    }

    twostate lemma AllUnder(
      index: nat, new total: nat, new name: string, new action: Action, new names: set<string>, new s: Subject
    )
      requires old(AtUpload(index, total, names)) && nextID == |files|
      requires OneUpload(lib, old(files), old(bytes), files, bytes, s)
      requires |files| - |old(files)| == 1 + archiveFiles - old(archiveFiles)
      requires Under(files, |old(files)|, NumberedName(index, total, name), action)
      requires IsOut(files[|old(files)|]) ==> name == Title(lib, action, s.source)
      ensures Advanced(old(files), old(bytes), index, total, s)
    {
      TitleEntered(old(files), old(bytes), index, total, name, action, s);
      hide TopsBelow, Under, BlockAt, AllTitled, Title;
      TopsGrow(old(files), files, index, total, name, action);
      UploadCounted(lib, old(files), old(bytes), files, bytes, s);
    }

    /** The next upload has its title, and its members need none. */
    lemma TitleEntered(
      front: seq<Record>, frontBytes: seq<Bytes>, index: nat, total: nat, name: string, action: Action, s: Subject
    )
      requires OneUpload(lib, front, frontBytes, files, bytes, s) && AllTitled(lib, front, total)
      requires CountUploads(front) == index && Under(files, |front|, NumberedName(index, total, name), action)
      requires IsOut(files[|front|]) ==> name == Title(lib, action, s.source)
      ensures AllTitled(lib, files, total)
    {
      var n := |front|;
      hide AllTitled, Title, EachOnce, Obligations, NumberedName, CountUploads;
      EachOnceMembers(EnvelopeOf(files[n]), Obligations(lib, files[n], bytes[n]), files[n + 1..|files|]);
      assert forall i :: n < i < |files| ==> files[i] == files[n + 1..|files|][i - n - 1];
      TitledMore(lib, front, files, total);
    }

    twostate lemma OneRejected(index: nat, new total: nat, new names: set<string>)
      requires old(AtUpload(index, total, names)) && nextID == |files| && Entered() && archiveFiles == old(archiveFiles)
      requires |old(bytes)| == |old(files)| && !IsOut(files[|old(files)|]) && files[|old(files)|].origin.Upload?
      ensures Advanced(old(files), old(bytes), index, total, About(files[|old(files)|]))
    {
      NothingUnder(old(files), NumberedName(index, total, ""), Omitted);
      SingleBlock(old(files), old(bytes));
      AllUnder(index, total, "", Omitted, names, About(files[|old(files)|]));
    }

    /** `processUpload` for what is not an archive. */
    method ProcessFile(
      ctx: Context, src: Path, index: nat, total: nat, name: string, d: Detection, record: Record,
      ghost rel: Path, ghost b: Bytes, ghost names: set<string>
    ) returns (exit: Option<Exit>)
      requires Admitted(lib, cfg, record, [])
      requires Going(names) && |bytes| == |files| && nextID == |files| + 1 && Draft(lib, files, bytes, record, b, [])
      requires Stored(Room(), names, rel, b) && src == staging.path + rel
      requires record.warnings == [] && record.detected == d.kind && record.shape.PlainFile? && !d.kind.ArchiveZip?
      requires record.origin.Upload? && record.size <= cfg.maxInputFileSize
      requires AtUpload(index, total, names) && AllKept(name) && ByteLen(name) <= MAX_NAME
      requires name == OutputName(lib, record.source, MAX_NAME)
      requires Examined(b, Ok(d)) in client.log
      modifies this`nextID, this`files, this`bytes, this`extracted, meter, ctx, fs, fs.disk, client
      ensures Since(exit, ctx, names)
      ensures exit.None? ==> Advanced(old(files), old(bytes), index, total, About(record))
    {
      hide OutputName, Going, Sane, Now, Draft, Stored, Sub, AtUpload, ByteLen, AllKept, Advanced, NumberedName,
        Creatable, ApprovedPath, SafeComponent, TopsBelow, FreshOut, Vouched, WorkFits;
      var top := NumberedName(index, total, name);
      var out := [top];
      AtUploadFacts(index, total, names);
      RoomForRecords(index, total, names);
      TopAccepted(index, total, name);
      FreshTop(files, index, total, name, []);
      assert [top] + [] == [top];
      var r := record;
      if d.archiveMime {
        r := r.(warnings := [ArchiveNotSupported]);
      }
      DraftId(record, b, []);
      SameDraft(record, r, b, []);
      UploadDraft(r, b, [], out);
      exit := FinishFile(ctx, src, top, d, r, rel, b, names);
      if exit.None? {
        TopUnder(|old(files)|, top);
        SingleBlock(old(files), old(bytes));
        AllUnder(index, total, name, Copied, names, About(record));
      }
    }

    lemma TopUnder(n: nat, top: string)
      requires |files| == n + 1 && (IsOut(files[n]) ==> Out(files[n]) == [top] && files[n].action.Copied?)
      ensures Under(files, n, top, Copied)
    {
    }

    /** Screening an upload and copying it out. */
    method FinishFile(
      ctx: Context, src: Path, top: string, d: Detection, record: Record, ghost rel: Path, ghost b: Bytes,
      ghost names: set<string>
    ) returns (exit: Option<Exit>)
      requires Admitted(lib, cfg, record, [top])
      requires Going(names) && |bytes| == |files| && nextID == |files| + 1 && Draft(lib, files, bytes, record, b, [top])
      requires Stored(Room(), names, rel, b) && src == staging.path + rel && WorkFits(record.id, names)
      requires record.detected == d.kind && record.shape.PlainFile? && FirstWarnings(record, d)
      requires record.size <= cfg.maxInputFileSize && record.origin.Upload? && !d.kind.ArchiveZip?
      requires ApprovedPath(top) == Some([top]) && Creatable([top]) && FreshOut(files, [top])
      requires Examined(b, Ok(d)) in client.log
      modifies this`files, this`bytes, this`extracted, meter, ctx, fs, fs.disk, client
      ensures Since(exit, ctx, names)
      ensures exit.None? ==> nextID == |files| && Entered() && About(files[|old(files)|]) == About(record)
      ensures exit.None? && IsOut(files[|old(files)|]) ==>
        Out(files[|old(files)|]) == [top] && files[|old(files)|].action.Copied?
    {
      hide OutputName, Going, Sane, Now, Draft, Stored, Sub, Creatable, ApprovedPath, FreshOut, Vouched, WorkFits;
      var r, passed;
      r, passed, exit := ScreenFile(ctx, src, record, d, rel, b, [top], names);
      if passed {
        StoredStill(ctx, names, rel, b);
        exit := CopyApproved(ctx, src, top, r, [top], rel, b, names);
      }
      GoingSane(names);
    }

    // ----- The batch -----

    /** As `Since`, for a step that also reads an input: that may have changed since it was loaded. */
    twostate predicate SinceInput(new exit: Option<Exit>, ctx: Context, new file: InputFile)
      reads this, staging, fs, fs.disk, client, meter, ctx
    {
      && Sane() && Later(old(Now(ctx, {})), Now(ctx, {}))
      && (exit.None? ==> Going({}))
      && (exit.Some? && exit != Some(InputExit) ==> Blamed(exit.value, ctx))
      && (exit == Some(InputExit) ==> fs.faults > base || !old(Unchanged(lib, fs.m, file)))
    }

    lemma SnapshotIds(index: nat, total: nat)
      requires AtUpload(index, total, {})
      ensures AtUpload(index, total, {InputName(index)}) && index < Pow10(5)
    {
      RecordBound();
      forall i: nat
        ensures WorkName(RecordId(i)) !in {InputName(index)}
      {
        NamesApart(index, i, i);
      }
    }

    /** Processing a snapshot, and removing it whatever has happened. */
    method ProcessSnapshot(
      ctx: Context, x: string, index: nat, total: nat, name: string, record: Record, ghost c: Bytes
    )
      returns (exit: Option<Exit>)
      requires Admitted(lib, cfg, record, [])
      requires Going({x}) && x != APPROVED && |bytes| == |files| && nextID == |files| + 1 && AtUpload(index, total, {x})
      requires Draft(lib, files, bytes, record, c, []) && Stored(Room(), {x}, [x], c)
      requires record.warnings == [] && record.shape.PlainFile? && record.origin.Upload?
      requires record.size <= cfg.maxInputFileSize
      requires AllKept(name) && ByteLen(name) <= MAX_NAME
      requires name == OutputName(lib, record.source, MAX_NAME)
      modifies this`nextID, this`files, this`bytes, this`extracted, this`archiveFiles, meter, ctx, fs, fs.disk, client
      ensures Since(exit, ctx, {})
      ensures exit.None? ==> Advanced(old(files), old(bytes), index, total, About(record))
    {
      hide OutputName, Going, Sane, Now, Draft, Stored, Sub, AtUpload, ByteLen, AllKept, TopsBelow, MAX_NAME;
      exit := ProcessUpload(ctx, staging.path + [x], index, total, name, record, [x], c, {x});
      StoredStill(ctx, {x}, [x], c);
      FewerKept(ctx, {}, {x});
      var removed := RemoveSnapshot(ctx, x, c);
      if exit.None? && !removed {
        exit := Some(FilesystemExit);
      }
    }

    /** Snapshot and processing. */
    method ScanContents(
      ctx: Context, file: InputFile, index: nat, total: nat, name: string, record: Record
    ) returns (exit: Option<Exit>)
      requires Admitted(lib, cfg, record, [])
      requires Going({}) && |bytes| == |files| && nextID == |files| + 1 && AtUpload(index, total, {})
      requires Draft(lib, files, bytes, record, file.loaded, []) && record.size == file.size && record.sha == file.sha
      requires record.warnings == [] && record.shape.PlainFile? && record.origin.Upload?
      requires record.size <= cfg.maxInputFileSize
      requires AllKept(name) && ByteLen(name) <= MAX_NAME
      requires name == OutputName(lib, record.source, MAX_NAME)
      modifies this`nextID, this`files, this`bytes, this`extracted, this`archiveFiles, meter, ctx, fs, fs.disk, client
      ensures SinceInput(exit, ctx, file)
      ensures exit.None? ==> Advanced(old(files), old(bytes), index, total, About(record))
    {
      hide OutputName, Going, Sane, Now, Draft, Stored, Sub, AtUpload, ByteLen, AllKept, TopsBelow, InputName, Pow10,
        Unchanged, MAX_NAME;
      var x := InputName(index);
      SnapshotIds(index, total);
      NamesApart(index, 0, 0);
      ghost var c;
      exit, c := Snapshot(ctx, file, index);
      if exit.None? {
        DraftBytes(record, file.loaded, c);
        exit := ProcessSnapshot(ctx, x, index, total, name, record, c);
      }
    }

    /** A draft is as good for any bytes of the same size and digest. */
    lemma DraftBytes(record: Record, b: Bytes, c: Bytes)
      requires |bytes| == |files| && Draft(lib, files, bytes, record, b, []) && record.origin.Upload?
      requires record.size == |c| && record.sha == lib.sha(c)
      ensures Draft(lib, files, bytes, record, c, [])
    {
    }

    /** One turn of the loop of `Scan` over the batch. */
    method ScanUpload(ctx: Context, file: InputFile, index: nat, total: nat) returns (exit: Option<Exit>)
      requires Going({}) && nextID == |files| && AtUpload(index, total, {}) && Hashed(lib, file)
      modifies this`nextID, this`files, this`bytes, this`extracted, this`archiveFiles, meter, ctx, fs, fs.disk, client
      ensures SinceInput(exit, ctx, file)
      ensures exit.None? ==> Advanced(old(files), old(bytes), index, total, UploadSubject(file))
    {
      hide Going, Sane, Now, Sub, AtUpload, ByteLen, AllKept, TopsBelow, Unchanged, MAX_NAME, OutputName, NfcKeepsSafe,
        ValidConfig, SafeComponent, ATTACHMENT, Draft, Advanced, CountUploads, Hashed;
      GoingFacts({});
      exit := ContextFailure(ctx);
      Looked(ctx, {});
      if exit.None? {
        var record := NewFile(None, file.attachment, file.name, Upload, file.size, file.sha);
        UploadDrafted(file, record);
        exit := AdmitUpload(ctx, file, index, total, record);
      }
      GoingSane({});
    }

    /** The checks that need no look at the file, and then the file itself. */
    method AdmitUpload(ctx: Context, file: InputFile, index: nat, total: nat, record: Record)
      returns (exit: Option<Exit>)
      requires Going({}) && |bytes| == |files| && nextID == |files| + 1 && AtUpload(index, total, {})
      requires Draft(lib, files, bytes, record, file.loaded, []) && About(record) == UploadSubject(file)
      requires record.warnings == [] && record.shape.PlainFile?
      modifies this`nextID, this`files, this`bytes, this`extracted, this`archiveFiles, meter, ctx, fs, fs.disk, client
      ensures SinceInput(exit, ctx, file)
      ensures exit.None? ==> Advanced(old(files), old(bytes), index, total, UploadSubject(file))
    {
      hide Going, Sane, Now, Sub, AtUpload, ByteLen, AllKept, TopsBelow, Unchanged, MAX_NAME, OutputName, NfcKeepsSafe,
        ValidConfig, SafeComponent, ATTACHMENT, Draft, Advanced, CountUploads;
      var name := OutputName(lib, file.name, MAX_NAME);
      UploadName(file.name);
      var reason := ExclusionReason(cfg.excludes([name]));
      if file.size > cfg.maxInputFileSize {
        reason := Some(FileTooLarge);
      }
      if reason.Some? {
        exit := None;
        Reject(record, reason.value, file.loaded, [], {});
        OneRejected(index, total, {});
      } else {
        exit := ScanContents(ctx, file, index, total, name, record);
      }
      GoingSane({});
    }

    /** The record of an upload, as it has just been opened. */
    lemma UploadDrafted(file: InputFile, record: Record)
      requires |bytes| == |files| && nextID == |files| + 1 && Hashed(lib, file)
      requires record.id == RecordId(nextID) && About(record) == UploadSubject(file)
      ensures Draft(lib, files, bytes, record, file.loaded, [])
    {
    }

    lemma UploadName(name: string)
      ensures AllKept(OutputName(lib, name, MAX_NAME)) && ByteLen(OutputName(lib, name, MAX_NAME)) <= MAX_NAME
    {
      OutputNameSafe(lib, name, MAX_NAME);
      AttachmentSafe();
      hide OutputName, ByteLen, IsControl, ATTACHMENT;
    }

    /** The scan has come to one upload. */
    ghost predicate Arrived(index: nat)
      reads this`nextID, this`files, this`archiveFiles
    {
      nextID == |files| && |files| == index + archiveFiles && TopsBelow(files, index, inputFiles) &&
        AllTitled(lib, files, inputFiles) && CountUploads(files) == index
    }

    lemma ArrivedAtUpload(index: nat)
      requires Arrived(index) && Going({}) && index < inputFiles
      ensures AtUpload(index, inputFiles, {})
    {
      GoingFacts({});
    }

    /** Nothing outside the staging directory changes, so an input that has changed had changed before. */
    twostate lemma ChangedBefore(ctx: Context, new batch: seq<InputFile>, new file: InputFile)
      requires Later(old(Now(ctx, {})), Now(ctx, {})) && staging.path == old(staging.path)
      requires file in batch && !(staging.path <= file.path) && !Unchanged(lib, fs.m, file)
      ensures SomeChanged(lib, old(fs.m), batch)
    {
      OutsideAgrees(old(fs.m), fs.m, staging.path, file.path);
      assert !Unchanged(lib, old(fs.m), file);
    }

    lemma SubjectsSnoc(batch: seq<InputFile>, i: nat)
      requires i < |batch|
      ensures UploadSubjects(batch[..i + 1]) == UploadSubjects(batch[..i]) + [UploadSubject(batch[i])]
    {
    }

    /** The loop of `Scan` over the batch. */
    method ScanUploads(ctx: Context, batch: seq<InputFile>) returns (exit: Option<Exit>)
      requires Going({}) && Arrived(0) && |batch| == inputFiles && files == [] && bytes == []
      requires forall file :: file in batch ==> Hashed(lib, file) && !(staging.path <= file.path)
      modifies this`nextID, this`files, this`bytes, this`extracted, this`archiveFiles, meter, ctx, fs, fs.disk, client
      ensures Sane() && Later(old(Now(ctx, {})), Now(ctx, {}))
      ensures exit.None? ==> Going({}) && Arrived(inputFiles) && Decided(lib, UploadSubjects(batch), files, bytes)
      ensures exit.Some? && exit != Some(InputExit) ==> Blamed(exit.value, ctx)
      ensures exit == Some(InputExit) ==> fs.faults > base || SomeChanged(lib, old(fs.m), batch)
    {
      hide Going, Sane, Now, Sub, Outside, AtUpload, TopsBelow, Unchanged, Hashed, CountUploads, Decided, OneUpload,
        UploadSubjects;
      GoingSane({});
      exit := None;
      var i := 0;
      NothingDecided(lib);
      assert UploadSubjects([]) == [] && batch[..0] == [];
      while i < |batch| && exit.None?
        invariant 0 <= i <= |batch|
        invariant Sane() && Later(old(Now(ctx, {})), Now(ctx, {}))
        invariant exit.None? ==> Going({}) && Arrived(i) && Decided(lib, UploadSubjects(batch[..i]), files, bytes)
        invariant exit.Some? && exit != Some(InputExit) ==> Blamed(exit.value, ctx)
        invariant exit == Some(InputExit) ==> fs.faults > base || SomeChanged(lib, old(fs.m), batch)
      {
        ArrivedAtUpload(i);
        assert batch[i] in batch;
        if !Unchanged(lib, fs.m, batch[i]) {
          ChangedBefore(ctx, batch, batch[i]);
        }
        ghost var front, frontBytes := files, bytes;
        exit := ScanUpload(ctx, batch[i], i, |batch|);
        if exit.None? {
          SubjectsSnoc(batch, i);
          DecidedSnoc(lib, UploadSubjects(batch[..i]), front, frontBytes, files, bytes, UploadSubject(batch[i]));
        }
        i := i + 1;
      }
      assert batch[..|batch|] == batch;
    }
  }
}
