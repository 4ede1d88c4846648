/**
 The records of the manifest, what each of them claims, and how together they
 agree with the tree of approved files (internal/manifest, internal/app/scan.go).
 */
module Records {
  import opened Basics
  import opened PosixPath
  import opened BoundedCopy
  import opened FileSystems
  import opened Confined
  import opened ZipNames
  import opened PathPlan
  import opened Preflights
  import opened Extraction
  import opened StagingArea
  import opened Names
  import opened Engines
  import Clamd

  // ----- Configuration -----

  datatype Exclusion = Included | ExcludedDirectory | SecretName

  datatype Config = Config(
    maxInputFileSize: nat, maxDiscovered: nat, maxExtractedFile: nat, maxExtractedTotal: nat,
    maxEntries: nat, maxRatio: nat, maxPathDepth: nat, maxPathBytes: nat,
    archives: bool, zipAllowed: bool, rejectExecutables: bool, rejectMismatch: bool,
    detectorStopsBatch: bool, malwareStopsBatch: bool, sizeLimitMessage: string -> bool,
    excludes: Path -> Exclusion,
    fileMode: Mode, dirMode: Mode
  )

  const HARD_MAX_FILE_SIZE := 256 * 1024 * 1024
  const HARD_MAX_EXTRACTED := 1024 * 1024 * 1024
  const HARD_MAX_FILE_COUNT := 10000

  /** The bounds of `Limits.validate` and `Output.validate` on which the scan relies. */
  predicate ValidConfig(cfg: Config) {
    && 0 < cfg.maxInputFileSize <= HARD_MAX_FILE_SIZE && 0 < cfg.maxExtractedFile <= HARD_MAX_FILE_SIZE
    && cfg.maxExtractedFile <= cfg.maxExtractedTotal <= HARD_MAX_EXTRACTED
    && 0 < cfg.maxDiscovered <= HARD_MAX_FILE_COUNT && 0 < cfg.maxEntries <= HARD_MAX_FILE_COUNT
    && 0 < cfg.maxRatio && 0 < cfg.maxPathDepth && 0 < cfg.maxPathBytes
    && cfg.dirMode & 0x92 == 0 && cfg.fileMode & 0xDB == 0
  }

  /** `configuredArchiveLimits` */
  function LimitsFor(cfg: Config, bytes: nat): Limits {
    Limits(cfg.maxEntries, bytes, cfg.maxExtractedFile, bytes, cfg.maxRatio, cfg.maxPathDepth, cfg.maxPathBytes)
  }

  // ----- Records -----

  datatype Warning = ArchiveNotSupported | ExecutableFound | Mismatch | NestedArchive | Unusual(code: string)

  datatype Origin = Upload | FromArchive
  datatype Shape = PlainFile | Container
  datatype Decision = Approved | Rejected
  datatype Action = Copied | Expanded | Omitted

  datatype Reason =
    | FileTooLarge | TypeDetectorError | ExtensionMismatch | MalwareFound | MalwareScanError | MalwareScanTimeout
    | ExecutableNotAllowed | SecretFileNotAllowed | ExcludedPath | ImageDimensionsExceeded | FromZip(code: Code)

  datatype Record = Record(
    id: string, parent: Option<string>, attachment: string, source: string, origin: Origin, shape: Shape,
    size: nat, sha: Digest, detected: FileType, decision: Decision, action: Action,
    output: Option<Path>, reason: Option<Reason>, warnings: seq<Warning>
  )

  /** The reason codes the manifest schema knows. */
  predicate InSchema(reason: Reason) {
    reason.FromZip? ==> reason.code !in {Canceled, IOError, InvalidLimits}
  }

  /** The conditional clauses of the manifest schema. */
  predicate Shaped(r: Record) {
    && (r.decision.Approved? ==> r.output.Some? && r.output.value != [] && r.reason.None? && !r.action.Omitted?)
    && (r.decision.Rejected? ==> r.output.None? && r.action.Omitted? && r.reason.Some? && InSchema(r.reason.value))
    && (r.action.Copied? ==> r.shape.PlainFile?)
    && (r.action.Expanded? ==> r.shape.Container?)
  }

  predicate IsExecutable(t: FileType) {
    t.Executable? || t.Package?
  }

  /** A container that was unpacked to its end within the limits, every checksum matching. */
  ghost predicate CleanContainer(lib: Library, cfg: Config, b: Bytes) {
    && lib.parse(b).Some?
    && var files, limits := lib.parse(b).value, LimitsFor(cfg, cfg.maxExtractedTotal);
    && Accepted(lib, files, limits) && Extractable(lib, EntriesOf(lib, files), limits)
  }

  /** A container in which nothing had to be omitted. */
  ghost predicate NothingOmitted(lib: Library, b: Bytes) {
    lib.parse(b).Some? && forall f :: f in lib.parse(b).value ==> f.kind.RegularEntry? || f.kind.DirectoryEntry?
  }

  /** The path under which the exclusion lists judge a file: its safe name, or its path in the archive. */
  function JudgedPath(lib: Library, origin: Origin, source: string, out: Path): Path {
    match origin
    case Upload => [OutputName(lib, source, MAX_NAME)]
    case FromArchive => if out == [] then [] else out[1..]
  }

  predicate Admitted(lib: Library, cfg: Config, r: Record, out: Path) {
    cfg.excludes(JudgedPath(lib, r.origin, r.source, out)).Included?
  }

  /** The warnings of an approved record say what the detector has found, and nothing else. */
  ghost predicate Warns(r: Record, d: Detection) {
    && (Mismatch in r.warnings <==> d.mismatch)
    && (ExecutableFound in r.warnings <==> d.kind in {Executable, Package})
    && (ArchiveNotSupported in r.warnings <==> r.origin.Upload? && !d.kind.ArchiveZip? && d.archiveMime)
    && (NestedArchive in r.warnings <==> r.origin.FromArchive? && (d.kind in {ArchiveZip, Package} || d.archiveMime))
    && (forall code :: Unusual(code) in r.warnings <==>
          d.unusual == Some(code) && d.kind !in {Executable, Package} && !(r.origin.Upload? && d.kind.ArchiveZip?))
  }

  /** Some examination of these bytes is what the type and the warnings come from. */
  ghost predicate Examination(log: Journal, r: Record, b: Bytes) {
    exists d: Detection :: Examined(b, Ok(d)) in log && d.kind == r.detected && Warns(r, d)
  }

  lemma ExaminationLater(log: Journal, later: Journal, r: Record, b: Bytes)
    requires Examination(log, r, b) && log <= later
    ensures Examination(later, r, b)
  {
    var d: Detection :| Examined(b, Ok(d)) in log && d.kind == r.detected && Warns(r, d);
    StillThere(log, later, Examined(b, Ok(d)));
  }

  /** What must be known about the bytes of an approved record. */
  ghost predicate Vouched(lib: Library, cfg: Config, log: Journal, r: Record, b: Bytes) {
    r.decision.Approved? ==>
      && Cleared(log, b) && Seen(log, b, r.detected) && Examination(log, r, b)
      && (r.origin.Upload? ==> r.size <= cfg.maxInputFileSize && (r.detected.ArchiveZip? <==> r.action.Expanded?))
      && Admitted(lib, cfg, r, Out(r))
      && !(cfg.rejectExecutables && r.detected in {Executable, Package})
      && !(cfg.rejectMismatch && Mismatch in r.warnings)
      && (r.detected.Ooxml? ==> CleanContainer(lib, cfg, b) && NothingOmitted(lib, b))
      && (r.action.Expanded? ==> cfg.archives && cfg.zipAllowed && r.origin.Upload? && CleanContainer(lib, cfg, b))
  }

  /** An upload whose archive was unpacked may be approved as expanded: its output path is not judged. */
  lemma ArchiveVouched(lib: Library, cfg: Config, log: Journal, r: Record, out: Path, b: Bytes)
    requires r.origin.Upload? && r.size <= cfg.maxInputFileSize && r.detected.ArchiveZip?
    requires Admitted(lib, cfg, r, out) && Cleared(log, b) && Seen(log, b, r.detected) && Examination(log, r, b)
    requires cfg.archives && cfg.zipAllowed && (cfg.rejectMismatch ==> Mismatch !in r.warnings)
    requires CleanContainer(lib, cfg, b)
    ensures Vouched(lib, cfg, log, ApprovedAt(r, out, Expanded), b)
  {
    hide OutputName, CleanContainer, NothingOmitted, Cleared, Seen, Examination;
    var a := ApprovedAt(r, out, Expanded);
    SameExamination(log, r, a, b);
    assert JudgedPath(lib, a.origin, a.source, Out(a)) == JudgedPath(lib, r.origin, r.source, out);
  }

  lemma SameExamination(log: Journal, r: Record, a: Record, b: Bytes)
    requires Examination(log, r, b)
    requires a.origin == r.origin && a.detected == r.detected && a.warnings == r.warnings
    ensures Examination(log, a, b)
  {
    var d: Detection :| Examined(b, Ok(d)) in log && d.kind == r.detected && Warns(r, d);
    assert Warns(a, d);
  }

  // ----- Reasons -----

  function CountUploads(files: seq<Record>): nat {
    if files == [] then 0
    else CountUploads(files[..|files| - 1]) + if files[|files| - 1].origin.Upload? then 1 else 0
  }

  /** What the daemon has to do with a rejection. */
  ghost predicate MalwareReason(cfg: Config, log: Journal, reason: Reason, b: Bytes) {
    match reason
    case MalwareFound => Condemned(log, b)
    case MalwareScanTimeout => !cfg.malwareStopsBatch && Expired(b) in log
    case MalwareScanError =>
      || (!cfg.malwareStopsBatch && (Lost(b) in log || Complained(log, b)))
      || TooLargeForDaemon(cfg, log, b)
    case _ => false
  }

  /** The daemon has answered that the file exceeds its own limits. */
  ghost predicate TooLargeForDaemon(cfg: Config, log: Journal, b: Bytes) {
    exists message :: cfg.sizeLimitMessage(message) && Judged(log, b, Clamd.Problem(message))
  }

  /** It has answered with some problem. */
  ghost predicate Complained(log: Journal, b: Bytes) {
    exists message :: Judged(log, b, Clamd.Problem(message))
  }

  /** It has answered with a problem other than that. */
  ghost predicate Protested(cfg: Config, log: Journal, b: Bytes) {
    exists message :: !cfg.sizeLimitMessage(message) && Judged(log, b, Clamd.Problem(message))
  }

  /** The detector has given up on the file, or run out of time. */
  predicate DetectorGaveUp(log: Journal, b: Bytes) {
    DetectionFailed(log, b, TimedOut) || DetectionFailed(log, b, DetectorFailed) ||
      DetectionFailed(log, b, ZipError(Canceled))
  }

  /** With the files of one more archive there would be more than the limit allows. */
  ghost predicate TooManyFiles(lib: Library, cfg: Config, log: Journal, files: seq<Record>, b: Bytes) {
    && lib.parse(b).Some?
    && exists uploads: nat {:trigger Started(uploads)} ::
         && Started(uploads) in log
         && uploads + (|files| - CountUploads(files)) + CountFiles(lib.parse(b).value) > cfg.maxDiscovered
  }

  /** Within some budget that was left for it, the container has this fault, or nothing was left. */
  ghost predicate RefusedWithin(lib: Library, cfg: Config, log: Journal, b: Bytes, code: Code) {
    exists left: nat {:trigger Allowed(b, left)} ::
      && Allowed(b, left) in log
      && (if left == 0 then code == LimitExceeded else ContainerFault(lib, b, LimitsFor(cfg, left), code))
  }

  ghost predicate HasOmission(lib: Library, b: Bytes, code: Code) {
    lib.parse(b).Some? && exists f :: f in lib.parse(b).value && OmittedAs(f, code)
  }

  /** Why a container is not accepted: an upload that is an archive, or any document. */
  ghost predicate ContainerRefused(
    lib: Library, cfg: Config, log: Journal, files: seq<Record>, origin: Origin, kind: FileType, b: Bytes, code: Code
  ) {
    var archive := origin.Upload? && kind.ArchiveZip?;
    && Seen(log, b, kind)
    && (|| (archive && code == Unsupported && !(cfg.archives && cfg.zipAllowed))
        || (archive && code == LimitExceeded && TooManyFiles(lib, cfg, log, files, b))
        || (kind.Ooxml? && HasOmission(lib, b, code))
        || ((archive || kind.Ooxml?) && RefusedWithin(lib, cfg, log, b, code))
        || (code == Invalid && Disturbed in log))
  }

  /** The record is about a member of that container which policy omits, for the reason it gives. */
  ghost predicate OmittedFrom(lib: Library, c: Record, z: Bytes, r: Record, b: Bytes, code: Code) {
    && r.origin.FromArchive? && r.parent == Some(c.id) && lib.parse(z).Some?
    && exists f :: f in lib.parse(z).value && OmittedAs(f, code) && b == f.body.data &&
         r.source == c.source + "!" + Join(SourceOf(lib, f))
  }

  ghost predicate OmissionReason(lib: Library, files: seq<Record>, bytes: seq<Bytes>, r: Record, b: Bytes, code: Code)
    requires |bytes| == |files|
  {
    exists j {:trigger files[j]} :: 0 <= j < |files| && OmittedFrom(lib, files[j], bytes[j], r, b, code)
  }

  /** What an archive code says about a rejected file. */
  ghost predicate ZipReason(
    lib: Library, cfg: Config, log: Journal, files: seq<Record>, bytes: seq<Bytes>, r: Record, b: Bytes, code: Code
  )
    requires |bytes| == |files|
  {
    || DetectionFailed(log, b, ZipError(code))
    || OmissionReason(lib, files, bytes, r, b, code)
    || ContainerRefused(lib, cfg, log, files, r.origin, r.detected, b, code)
  }

  /** What the reasons for rejection say, other than those about paths. */
  ghost predicate Reasoned(
    lib: Library, cfg: Config, log: Journal, files: seq<Record>, bytes: seq<Bytes>, r: Record, b: Bytes
  )
    requires |bytes| == |files|
  {
    r.reason.Some? ==>
      match r.reason.value
      case FileTooLarge => r.origin.Upload? && r.size > cfg.maxInputFileSize
      case ExecutableNotAllowed =>
        cfg.rejectExecutables && r.detected in {Executable, Package} && Seen(log, b, r.detected)
      case ExtensionMismatch =>
        cfg.rejectMismatch && Mismatch in r.warnings && SeenMismatch(log, b) && Seen(log, b, r.detected)
      case TypeDetectorError => !cfg.detectorStopsBatch && DetectorGaveUp(log, b)
      case ImageDimensionsExceeded => !cfg.detectorStopsBatch && DetectionFailed(log, b, TooManyPixels)
      case SecretFileNotAllowed => true
      case ExcludedPath => true
      case FromZip(code) => ZipReason(lib, cfg, log, files, bytes, r, b, code)
      case _ => MalwareReason(cfg, log, r.reason.value, b) && Seen(log, b, r.detected)
  }

  /** The time for one file has run out, and the policy is to stop then. */
  ghost predicate RanOut(cfg: Config, log: Journal) {
    || (cfg.malwareStopsBatch && exists b {:trigger Expired(b)} :: Expired(b) in log)
    || (cfg.detectorStopsBatch && exists b ::
          DetectionFailed(log, b, TimedOut) || DetectionFailed(log, b, ZipError(Canceled)))
  }

  /** An engine has failed on some file, and the policy is to stop then. */
  ghost predicate EngineFailed(cfg: Config, log: Journal) {
    || (cfg.malwareStopsBatch && exists b {:trigger Lost(b)} {:trigger Protested(cfg, log, b)} ::
          Lost(b) in log || Protested(cfg, log, b))
    || (cfg.detectorStopsBatch && exists b ::
          DetectionFailed(log, b, TooManyPixels) || DetectionFailed(log, b, DetectorFailed))
  }

  /** More that happens does not take a reason away. */
  lemma ReasonedLater(
    lib: Library, cfg: Config, log: Journal, later: Journal, files: seq<Record>, bytes: seq<Bytes>, r: Record, b: Bytes
  )
    requires |bytes| == |files| && Reasoned(lib, cfg, log, files, bytes, r, b) && log <= later
    ensures Reasoned(lib, cfg, later, files, bytes, r, b)
  {
    assert forall e :: e in log ==> e in later;
    hide Judged, ContainerFault, CountUploads, CountFiles, OmissionReason;
    forall v | Judged(log, b, v)
      ensures Judged(later, b, v)
    {
      JudgedLater(log, later, b, v);
    }
  }

  // ----- What the journal says of the run itself -----

  /**
   What the journal records of the run is true: the number of uploads, the budgets that
   were left, of which at least `left` remains, that something has failed, and that the daemon
   has given no verdict.
   */
  ghost predicate Truthful(log: Journal, uploads: nat, left: int, faulted: bool) {
    && Started(uploads) in log && (forall n: nat {:trigger Started(n)} :: Started(n) in log ==> n == uploads)
    && (forall b, n: nat {:trigger Allowed(b, n)} :: Allowed(b, n) in log ==> left <= n)
    && (Disturbed in log ==> faulted)
    && (forall b {:trigger Lost(b)} :: Lost(b) in log ==> Silent(log, b))
    && (forall b {:trigger Expired(b)} :: Expired(b) in log ==> Silent(log, b))
  }

  lemma TruthfulLater(log: Journal, uploads: nat, left: int, less: int, faulted: bool, worse: bool)
    requires Truthful(log, uploads, left, faulted) && less <= left && (faulted ==> worse)
    ensures Truthful(log, uploads, less, worse)
  {
  }

  lemma TruthfulSnoc(log: Journal, e: Event, uploads: nat, left: int, faulted: bool)
    requires Truthful(log, uploads, left, faulted)
    requires !e.Started? && (e.Allowed? ==> left <= e.left) && (e.Disturbed? ==> faulted)
    requires e.Lost? || e.Expired? ==> Silent(log, e.data)
    ensures Truthful(log + [e], uploads, left, faulted)
  {
    assert forall d :: d in log + [e] <==> d in log || d == e;
    hide Silent;
    forall b | Silent(log, b)
      ensures Silent(log + [e], b)
    {
      SilentLater(log, log + [e], b);
    }
  }

  /** `excludedPath`, as a reason. */
  function ExclusionReason(e: Exclusion): Option<Reason> {
    match e
    case Included => None
    case ExcludedDirectory => Some(ExcludedPath)
    case SecretName => Some(SecretFileNotAllowed)
  }

  /** A rejection because of its path names the list the path is on. */
  predicate ListedAs(cfg: Config, p: Path, reason: Option<Reason>) {
    && (reason == Some(ExcludedPath) ==> cfg.excludes(p).ExcludedDirectory?)
    && (reason == Some(SecretFileNotAllowed) ==> cfg.excludes(p).SecretName?)
  }

  /** The digest and size of a record are those of its bytes. */
  predicate Described(lib: Library, r: Record, b: Bytes) {
    r.sha == lib.sha(b) && r.size == |b|
  }

  /** A record about one member of the container another record describes. */
  ghost predicate AboutMember(lib: Library, cfg: Config, c: Record, z: Bytes, r: Record, b: Bytes, f: Member) {
    && !IsDir(f) && b == f.body.data
    && r.source == c.source + "!" + Join(SourceOf(lib, f))
    && (r.decision.Approved? ==> f.kind.RegularEntry? && r.output == Some(Out(c) + Nfc(lib, SourceOf(lib, f))))
    && (forall code :: OmittedAs(f, code) ==> r.reason == Some(FromZip(code)))
    && ListedAs(cfg, Nfc(lib, SourceOf(lib, f)), r.reason)
  }

  ghost predicate ChildOf(lib: Library, cfg: Config, c: Record, z: Bytes, r: Record, b: Bytes) {
    && c.origin.Upload? && c.decision.Approved? && c.action.Expanded? && c.output.Some?
    && r.parent == Some(c.id) && r.attachment == c.attachment
    && lib.parse(z).Some? && exists f :: f in lib.parse(z).value && AboutMember(lib, cfg, c, z, r, b, f)
  }

  /**
   Uploads have no parent, and are judged by their own name; the parent of a member
   is an earlier record of an expanded upload.
   */
  ghost predicate HasParent(lib: Library, cfg: Config, files: seq<Record>, bytes: seq<Bytes>, r: Record, b: Bytes)
    requires |bytes| == |files|
  {
    match r.origin
    case Upload => r.parent.None? && ListedAs(cfg, JudgedPath(lib, Upload, r.source, []), r.reason)
    case FromArchive => exists j {:trigger files[j]} :: 0 <= j < |files| && ChildOf(lib, cfg, files[j], bytes[j], r, b)
  }

  // ----- Extractions -----

  /** A larger byte budget accepts and extracts at least as much. */
  lemma BudgetLarger(lib: Library, cfg: Config, files: seq<Member>, n: nat, more: nat)
    requires n <= more
    requires Accepted(lib, files, LimitsFor(cfg, n)) && Extractable(lib, EntriesOf(lib, files), LimitsFor(cfg, n))
    ensures Accepted(lib, files, LimitsFor(cfg, more))
    ensures Extractable(lib, EntriesOf(lib, files), LimitsFor(cfg, more))
  {
    var small, large := LimitsFor(cfg, n), LimitsFor(cfg, more);
    hide PathsAccepted, Sound;
    forall f | f in files
      ensures MemberAccepted(lib, f, large)
    {
      assert MemberAccepted(lib, f, small);
      SameMember(lib, f, small, large);
    }
  }

  lemma BudgetGrows(lib: Library, cfg: Config, files: seq<Member>, n: nat)
    requires n <= cfg.maxExtractedTotal
    requires Accepted(lib, files, LimitsFor(cfg, n)) && Extractable(lib, EntriesOf(lib, files), LimitsFor(cfg, n))
    ensures Accepted(lib, files, LimitsFor(cfg, cfg.maxExtractedTotal))
    ensures Extractable(lib, EntriesOf(lib, files), LimitsFor(cfg, cfg.maxExtractedTotal))
  {
    BudgetLarger(lib, cfg, files, n, cfg.maxExtractedTotal);
  }

  lemma SameMember(lib: Library, f: Member, a: Limits, b: Limits)
    requires MemberAccepted(lib, f, a)
    requires a.maxFileBytes == b.maxFileBytes && a.maxPathBytes == b.maxPathBytes && a.maxPathDepth == b.maxPathDepth
    requires a.maxRatio == b.maxRatio
    ensures MemberAccepted(lib, f, b)
  {
  }

  lemma NoneRejectedSnoc(lib: Library, front: seq<Member>, f: Member)
    requires RejectedEntries(lib, EntriesOf(lib, front + [f])) == []
    ensures RejectedEntries(lib, EntriesOf(lib, front)) == [] && (f.kind.RegularEntry? || f.kind.DirectoryEntry?)
  {
    EntriesSnoc(lib, front, f);
    var es, e := EntriesOf(lib, front), EntryOf(lib, f);
    assert (es + [e])[..|es|] == es && (es + [e])[|es|] == e;
    hide SourceOf, Nfc, EntriesOf;
    assert |RejectedEntries(lib, es + [e])| >= |RejectedEntries(lib, es)|;
  }

  /** An extraction that reports no rejected entry met none. */
  lemma {:induction false} NoneRejected(lib: Library, files: seq<Member>)
    requires RejectedEntries(lib, EntriesOf(lib, files)) == []
    ensures forall f :: f in files ==> f.kind.RegularEntry? || f.kind.DirectoryEntry?
  {
    hide RejectedEntries, EntriesOf;
    if files != [] {
      var front, f := files[..|files| - 1], files[|files| - 1];
      assert files == front + [f];
      NoneRejectedSnoc(lib, front, f);
      NoneRejected(lib, front);
    }
  }

  lemma WrittenOpen(nodes: map<Path, NodeInfo>, es: seq<Entry>)
    ensures OpenDirs(Written(nodes, es))
  {
    DirectoriesOpen();
    forall k | k in Written(nodes, es) && Written(nodes, es)[k].Dir?
      ensures OwnerWritable(Written(nodes, es)[k].mode)
    {
      WrittenKeys(es, k);
    }
  }

  /** What a successful extraction tells the scan about a container. */
  lemma Unpacked(lib: Library, cfg: Config, b: Bytes, n: nat, nodes: map<Path, NodeInfo>, r: Outcome, t: Tree)
    requires lib.parse(b).Some? && n <= cfg.maxExtractedTotal && r.Extracted?
    requires ExtractedAs(lib, lib.parse(b).value, nodes, r, t, LimitsFor(cfg, n))
    ensures CleanContainer(lib, cfg, b) && OpenDirs(t)
    ensures r.stats.rejected == [] ==> NothingOmitted(lib, b)
  {
    var files := lib.parse(b).value;
    hide Accepted, Extractable, Written, NodesPlanned;
    BudgetGrows(lib, cfg, files, n);
    WrittenOpen(nodes, EntriesOf(lib, files));
    if r.stats.rejected == [] {
      NoneRejected(lib, files);
    }
  }

  // ----- Records in the making -----

  /** Where a record comes from: an upload, or a member of an expanded one that would be put at `out`. */
  ghost predicate Provenance(
    lib: Library, files: seq<Record>, bytes: seq<Bytes>,
    origin: Origin, parent: Option<string>, attachment: string, source: string, b: Bytes, out: Path
  )
    requires |bytes| == |files|
  {
    match origin
    case Upload => parent.None?
    case FromArchive =>
      exists j {:trigger files[j]} ::
        0 <= j < |files| && MemberOf(lib, files[j], bytes[j], parent, attachment, source, b, out)
  }

  ghost predicate MemberOf(
    lib: Library, c: Record, z: Bytes, parent: Option<string>, attachment: string, source: string, b: Bytes, out: Path
  ) {
    && c.origin.Upload? && c.decision.Approved? && c.action.Expanded? && c.output.Some? && |Out(c)| == 1
    && parent == Some(c.id) && attachment == c.attachment
    && lib.parse(z).Some? && exists f :: f in lib.parse(z).value && FoundAs(lib, c, source, b, out, f)
  }

  ghost predicate FoundAs(lib: Library, c: Record, source: string, b: Bytes, out: Path, f: Member) {
    && f.kind.RegularEntry? && b == f.body.data
    && source == c.source + "!" + Join(SourceOf(lib, f)) && out == Out(c) + Nfc(lib, SourceOf(lib, f))
  }

  /** A record that has been opened but not yet entered. */
  ghost predicate Draft(lib: Library, files: seq<Record>, bytes: seq<Bytes>, r: Record, b: Bytes, out: Path)
    requires |bytes| == |files|
  {
    && r.id == RecordId(|files| + 1) && Described(lib, r, b)
    && Provenance(lib, files, bytes, r.origin, r.parent, r.attachment, r.source, b, out)
  }

  function RejectedFor(r: Record, reason: Reason): Record {
    r.(decision := Rejected, action := Omitted, output := None, reason := Some(reason))
  }

  function ApprovedAt(r: Record, out: Path, action: Action): Record {
    r.(decision := Approved, action := action, output := Some(out), reason := None)
  }

  lemma ProvenanceIsParent(
    lib: Library, cfg: Config, files: seq<Record>, bytes: seq<Bytes>, r: Record, b: Bytes, out: Path
  )
    requires |bytes| == |files| && Provenance(lib, files, bytes, r.origin, r.parent, r.attachment, r.source, b, out)
    requires r.decision.Approved? ==> r.output == Some(out)
    requires ListedAs(cfg, JudgedPath(lib, r.origin, r.source, out), r.reason)
    ensures HasParent(lib, cfg, files, bytes, r, b)
  {
    if r.origin.FromArchive? {
      var j :| 0 <= j < |files| && MemberOf(lib, files[j], bytes[j], r.parent, r.attachment, r.source, b, out);
      var c, z := files[j], bytes[j];
      var f :| f in lib.parse(z).value && FoundAs(lib, c, r.source, b, out, f);
      assert out[1..] == Nfc(lib, SourceOf(lib, f));
      assert AboutMember(lib, cfg, c, z, r, b, f);
      assert ChildOf(lib, cfg, files[j], bytes[j], r, b);
    }
  }

  lemma DraftRejected(
    lib: Library, cfg: Config, log: Journal, files: seq<Record>, bytes: seq<Bytes>, r: Record,
    reason: Reason, b: Bytes, out: Path
  )
    requires |bytes| == |files| && Draft(lib, files, bytes, r, b, out) && InSchema(reason)
    requires Reasoned(lib, cfg, log, files, bytes, RejectedFor(r, reason), b)
    requires ListedAs(cfg, JudgedPath(lib, r.origin, r.source, out), Some(reason))
    ensures Sincere(lib, cfg, log, files, bytes, RejectedFor(r, reason), b)
  {
    ProvenanceIsParent(lib, cfg, files, bytes, RejectedFor(r, reason), b, out);
  }

  lemma DraftApproved(
    lib: Library, cfg: Config, log: Journal, files: seq<Record>, bytes: seq<Bytes>, r: Record,
    action: Action, b: Bytes, out: Path
  )
    requires |bytes| == |files| && Draft(lib, files, bytes, r, b, out) && out != []
    requires (action.Copied? && r.shape.PlainFile?) || (action.Expanded? && r.shape.Container?)
    requires Vouched(lib, cfg, log, ApprovedAt(r, out, action), b)
    ensures Sincere(lib, cfg, log, files, bytes, ApprovedAt(r, out, action), b)
  {
    ProvenanceIsParent(lib, cfg, files, bytes, ApprovedAt(r, out, action), b, out);
  }

  /** Everything one record claims. */
  ghost predicate Sincere(
    lib: Library, cfg: Config, log: Journal, files: seq<Record>, bytes: seq<Bytes>, r: Record, b: Bytes
  )
    requires |bytes| == |files|
  {
    && r.id == RecordId(|files| + 1) && Shaped(r) && Described(lib, r, b)
    && Vouched(lib, cfg, log, r, b) && Reasoned(lib, cfg, log, files, bytes, r, b)
    && HasParent(lib, cfg, files, bytes, r, b)
  }

  /** Each record in terms of those before it; `bytes` holds what each is about. */
  ghost predicate Ledger(lib: Library, cfg: Config, log: Journal, files: seq<Record>, bytes: seq<Bytes>) {
    && |bytes| == |files|
    && forall i {:trigger files[i]} :: 0 <= i < |files| ==>
      Sincere(lib, cfg, log, files[..i], bytes[..i], files[i], bytes[i])
  }

  lemma LedgerSnoc(
    lib: Library, cfg: Config, log: Journal, files: seq<Record>, bytes: seq<Bytes>, r: Record, b: Bytes
  )
    requires Ledger(lib, cfg, log, files, bytes) && Sincere(lib, cfg, log, files, bytes, r, b)
    ensures Ledger(lib, cfg, log, files + [r], bytes + [b])
  {
    hide Sincere;
    forall i | 0 <= i < |files| + 1
      ensures Sincere(lib, cfg, log, (files + [r])[..i], (bytes + [b])[..i], (files + [r])[i], (bytes + [b])[i])
    {
      assert (files + [r])[..i] == files[..i] && (bytes + [b])[..i] == bytes[..i];
      assert files[..|files|] == files && bytes[..|bytes|] == bytes;
    }
  }

  lemma SincereLater(
    lib: Library, cfg: Config, log: Journal, later: Journal, files: seq<Record>,
    bytes: seq<Bytes>, r: Record, b: Bytes
  )
    requires |bytes| == |files| && Sincere(lib, cfg, log, files, bytes, r, b) && log <= later
    ensures Sincere(lib, cfg, later, files, bytes, r, b)
  {
    if Cleared(log, b) {
      JudgedLater(log, later, b, Clamd.Clean);
    }
    if Seen(log, b, r.detected) {
      SeenLater(log, later, b, r.detected);
    }
    if Examination(log, r, b) {
      ExaminationLater(log, later, r, b);
    }
    hide Examination, Judged, Seen, Reasoned, HasParent, CleanContainer, NothingOmitted, OutputName;
    ReasonedLater(lib, cfg, log, later, files, bytes, r, b);
  }

  /** Further exchanges with the daemon do not unsettle the ledger. */
  lemma LedgerLater(
    lib: Library, cfg: Config, log: Journal, later: Journal, files: seq<Record>,
    bytes: seq<Bytes>
  )
    requires Ledger(lib, cfg, log, files, bytes) && log <= later
    ensures Ledger(lib, cfg, later, files, bytes)
  {
    forall i | 0 <= i < |files|
      ensures Sincere(lib, cfg, later, files[..i], bytes[..i], files[i], bytes[i])
    {
      SincereLater(lib, cfg, log, later, files[..i], bytes[..i], files[i], bytes[i]);
    }
  }

  // ----- Agreement with the output tree -----

  predicate IsOut(r: Record) {
    r.decision.Approved? && r.output.Some?
  }

  function Out(r: Record): Path {
    if r.output.Some? then r.output.value else []
  }

  /** The output of every copied record is a file with its bytes, that of every expanded one a directory. */
  ghost predicate OutputsThere(files: seq<Record>, bytes: seq<Bytes>, t: Tree)
    requires |bytes| == |files|
  {
    forall i {:trigger files[i]} :: 0 <= i < |files| && IsOut(files[i]) ==>
      Out(files[i]) in t && match files[i].action
                            case Copied => t[Out(files[i])].File? && t[Out(files[i])].data == bytes[i]
                            case _ => t[Out(files[i])].Dir?
  }

  /** An entry that a record accounts for: on the way to its output, or a file that is its output. */
  ghost predicate Covers(r: Record, k: Path, v: Node) {
    IsOut(r) && k <= Out(r) && (v.File? ==> r.action.Copied? && k == Out(r))
  }

  /** Whatever is in the tree is on the way to an output, and every file is one. */
  ghost predicate NothingElse(files: seq<Record>, t: Tree) {
    forall k {:trigger k in t} :: k in t && k != [] ==>
      exists i {:trigger files[i]} :: 0 <= i < |files| && Covers(files[i], k, t[k])
  }

  /** Outputs are entered in the order of their paths, in which a sorted listing shows them. */
  ghost predicate OutputsSorted(files: seq<Record>) {
    forall i, j {:trigger files[i], files[j]} :: 0 <= i < j < |files| && IsOut(files[i]) && IsOut(files[j]) ==>
      PathLess(Out(files[i]), Out(files[j]))
  }

  ghost predicate Agree(files: seq<Record>, bytes: seq<Bytes>, t: Tree)
    requires |bytes| == |files|
  {
    OutputsThere(files, bytes, t) && NothingElse(files, t) && OutputsSorted(files) && [] in t && t[[]].Dir?
  }

  /** A path behind all outputs that collides with none: not above or at one, and not below a copied file. */
  ghost predicate FreshOut(files: seq<Record>, p: Path) {
    forall i {:trigger files[i]} :: 0 <= i < |files| && IsOut(files[i]) ==>
      PathLess(Out(files[i]), p) && !(p <= Out(files[i])) && (files[i].action.Copied? ==> !(Out(files[i]) <= p))
  }

  lemma Accounted(files: seq<Record>, t: Tree, k: Path) returns (i: nat)
    requires NothingElse(files, t) && k in t && k != []
    ensures i < |files| && Covers(files[i], k, t[k])
  {
    i :| 0 <= i < |files| && Covers(files[i], k, t[k]);
  }

  /** Its slot in the tree is free, so neither `MkdirAll` nor the exclusive create can refuse it. */
  lemma FreshIsFree(files: seq<Record>, bytes: seq<Bytes>, t: Tree, p: Path)
    requires |bytes| == |files| && Agree(files, bytes, t) && FreshOut(files, p) && p != []
    ensures p !in t
    ensures WayClear(t, Parent(p)) && WayClear(t, p)
  {
    hide NothingElse;
    if p in t {
      var i := Accounted(files, t, p);
    }
    forall q | q in Prefixes(p) && q in t
      ensures t[q].Dir?
    {
      var i := Accounted(files, t, q);
    }
    forall q | q in Prefixes(Parent(p))
      ensures q in Prefixes(p)
    {
      var n :| 1 <= n <= |p| - 1 && Parent(p)[..n] == q;
      assert p[..n] == q;
    }
  }

  lemma NothingElseSnoc(files: seq<Record>, t: Tree, r: Record)
    requires NothingElse(files, t)
    ensures NothingElse(files + [r], t)
  {
    var more := files + [r];
    forall k | k in t && k != []
      ensures exists i {:trigger more[i]} :: 0 <= i < |more| && Covers(more[i], k, t[k])
    {
      var i :| 0 <= i < |files| && Covers(files[i], k, t[k]);
      assert more[i] == files[i];
    }
  }

  /** A rejected record changes nothing. */
  lemma AgreeRejected(files: seq<Record>, bytes: seq<Bytes>, t: Tree, r: Record, b: Bytes)
    requires |bytes| == |files| && Agree(files, bytes, t) && !IsOut(r)
    ensures Agree(files + [r], bytes + [b], t)
  {
    NothingElseSnoc(files, t, r);
    hide NothingElse;
    var more := files + [r];
    assert forall i :: 0 <= i < |files| ==> more[i] == files[i] && (bytes + [b])[i] == bytes[i];
    assert OutputsThere(more, bytes + [b], t);
    assert OutputsSorted(more);
  }

  /** The tree once a new output is in place. */
  ghost function WithOutput(t: Tree, r: Record, b: Bytes): Tree
    requires IsOut(r) && Out(r) != []
  {
    if r.action.Copied? then AddedFile(t, Out(r), b) else WithDirs(t, Out(r))
  }

  lemma WithOutputThere(files: seq<Record>, bytes: seq<Bytes>, t: Tree, r: Record, b: Bytes)
    requires |bytes| == |files| && OutputsThere(files, bytes, t) && IsOut(r) && Out(r) != [] && Out(r) !in t
    ensures OutputsThere(files + [r], bytes + [b], WithOutput(t, r, b))
  {
    var more, u, p := files + [r], WithOutput(t, r, b), Out(r);
    assert p[..|p|] == p;
    assert p in Prefixes(p);
    forall i | 0 <= i < |more| && IsOut(more[i])
      ensures Out(more[i]) in u && match more[i].action
                                   case Copied => u[Out(more[i])].File? && u[Out(more[i])].data == (bytes + [b])[i]
                                   case _ => u[Out(more[i])].Dir?
    {
      if i < |files| {
        assert more[i] == files[i] && (bytes + [b])[i] == bytes[i];
      }
    }
  }

  lemma WithOutputNothingElse(files: seq<Record>, t: Tree, r: Record, b: Bytes)
    requires NothingElse(files, t) && IsOut(r) && Out(r) != [] && Out(r) !in t
    ensures NothingElse(files + [r], WithOutput(t, r, b))
  {
    var more, u, p := files + [r], WithOutput(t, r, b), Out(r);
    forall k | k in u && k != []
      ensures exists i {:trigger more[i]} :: 0 <= i < |more| && Covers(more[i], k, u[k])
    {
      if k in t {
        var i :| 0 <= i < |files| && Covers(files[i], k, t[k]);
        assert more[i] == files[i];
      } else {
        assert more[|files|] == r;
        assert k == p || k in Prefixes(Parent(p)) || k in Prefixes(p);
        assert k <= p;
      }
    }
  }

  /** Putting a new output in place keeps the agreement. */
  lemma AgreeOutput(files: seq<Record>, bytes: seq<Bytes>, t: Tree, r: Record, b: Bytes)
    requires |bytes| == |files| && Agree(files, bytes, t) && IsOut(r) && Out(r) != [] && FreshOut(files, Out(r))
    ensures Agree(files + [r], bytes + [b], WithOutput(t, r, b))
  {
    FreshIsFree(files, bytes, t, Out(r));
    WithOutputThere(files, bytes, t, r, b);
    WithOutputNothingElse(files, t, r, b);
    SortedSnoc(files, r);
    hide OutputsThere, NothingElse, OutputsSorted;
  }

  lemma SortedSnoc(files: seq<Record>, r: Record)
    requires OutputsSorted(files) && (IsOut(r) ==> FreshOut(files, Out(r)))
    ensures OutputsSorted(files + [r])
  {
    hide PathLess;
    var more := files + [r];
    forall i, j | 0 <= i < j < |more| && IsOut(more[i]) && IsOut(more[j])
      ensures PathLess(Out(more[i]), Out(more[j]))
    {
      assert more[i] == files[i];
      if j < |files| {
        assert more[j] == files[j];
      }
    }
  }

  // ----- Traces -----

  /** No file below `t` holds anything but the beginning of something the daemon has cleared. */
  ghost predicate Traced(t: Tree, log: Journal) {
    forall k {:trigger k in t} :: k in t && t[k].File? ==> exists b :: Cleared(log, b) && t[k].data <= b
  }

  lemma TracedPartial(t: Tree, u: Tree, k: Path, log: Journal, b: Bytes)
    requires Traced(t, log) && k != [] && PartialCopy(t, u, k, b) && Cleared(log, b)
    ensures Traced(u, log)
  {
  }

  /** What agrees with a ledger holds only what the daemon has cleared. */
  lemma AgreeTraced(
    lib: Library, cfg: Config, log: Journal, files: seq<Record>, bytes: seq<Bytes>, t: Tree
  )
    requires Ledger(lib, cfg, log, files, bytes) && Agree(files, bytes, t)
    ensures Traced(t, log)
  {
    hide NothingElse, Judged;
    forall k {:trigger k in t} | k in t && t[k].File?
      ensures Cleared(log, t[k].data)
    {
      var i := Accounted(files, t, k);
      assert Sincere(lib, cfg, log, files[..i], bytes[..i], files[i], bytes[i]);
    }
  }

  lemma TracedRemains(t: Tree, u: Tree, log: Journal)
    requires Traced(t, log) && Remains(t, u)
    ensures Traced(u, log)
  {
  }

  lemma TracedDirs(t: Tree, u: Tree, k: Path, log: Journal)
    requires Traced(t, log) && SomeDirsAdded(t, u, k)
    ensures Traced(u, log)
  {
  }

  lemma TracedLater(t: Tree, log: Journal, later: Journal)
    requires Traced(t, log) && log <= later
    ensures Traced(t, later)
  {
    forall k | k in t && t[k].File?
      ensures exists b :: Cleared(later, b) && t[k].data <= b
    {
      var b :| Cleared(log, b) && t[k].data <= b;
      JudgedLater(log, later, b, Clamd.Clean);
      assert Cleared(later, b);
    }
  }

  /** Entering a rejection keeps the books. */
  lemma RejectionEntered(
    lib: Library, cfg: Config, log: Journal, files: seq<Record>, bytes: seq<Bytes>, t: Tree,
    r: Record, reason: Reason, b: Bytes, out: Path
  )
    requires Ledger(lib, cfg, log, files, bytes) && Agree(files, bytes, t) && Draft(lib, files, bytes, r, b, out)
    requires InSchema(reason) && Reasoned(lib, cfg, log, files, bytes, RejectedFor(r, reason), b)
    requires ListedAs(cfg, JudgedPath(lib, r.origin, r.source, out), Some(reason))
    ensures Ledger(lib, cfg, log, files + [RejectedFor(r, reason)], bytes + [b])
    ensures Agree(files + [RejectedFor(r, reason)], bytes + [b], t)
  {
    DraftRejected(lib, cfg, log, files, bytes, r, reason, b, out);
    LedgerSnoc(lib, cfg, log, files, bytes, RejectedFor(r, reason), b);
    AgreeRejected(files, bytes, t, RejectedFor(r, reason), b);
  }

  /** Entering an approval keeps them too, once the output is in place. */
  lemma ApprovalEntered(
    lib: Library, cfg: Config, log: Journal, files: seq<Record>, bytes: seq<Bytes>, t: Tree,
    r: Record, action: Action, b: Bytes, out: Path
  )
    requires Ledger(lib, cfg, log, files, bytes) && Agree(files, bytes, t) && Draft(lib, files, bytes, r, b, out)
    requires out != [] && FreshOut(files, out)
    requires (action.Copied? && r.shape.PlainFile?) || (action.Expanded? && r.shape.Container?)
    requires Vouched(lib, cfg, log, ApprovedAt(r, out, action), b)
    ensures Ledger(lib, cfg, log, files + [ApprovedAt(r, out, action)], bytes + [b])
    ensures Agree(files + [ApprovedAt(r, out, action)], bytes + [b], WithOutput(t, ApprovedAt(r, out, action), b))
  {
    DraftApproved(lib, cfg, log, files, bytes, r, action, b, out);
    LedgerSnoc(lib, cfg, log, files, bytes, ApprovedAt(r, out, action), b);
    AgreeOutput(files, bytes, t, ApprovedAt(r, out, action), b);
  }

  // ----- Records of members -----

  /** The record of an expanded container, and the container itself. */
  ghost predicate ContainerAt(
    lib: Library, files: seq<Record>, bytes: seq<Bytes>, c: nat, id: string, attachment: string, source: string,
    directory: string, z: Bytes
  ) {
    && |bytes| == |files| && c < |files| && bytes[c] == z && lib.parse(z).Some?
    && files[c].origin.Upload? && files[c].decision.Approved? && files[c].action.Expanded?
    && files[c].output == Some([directory]) && files[c].id == id && files[c].attachment == attachment
    && files[c].source == source
  }

  lemma ContainerStays(
    lib: Library, files: seq<Record>, bytes: seq<Bytes>, r: Record, b: Bytes,
    c: nat, id: string, attachment: string, source: string, directory: string, z: Bytes
  )
    requires ContainerAt(lib, files, bytes, c, id, attachment, source, directory, z)
    ensures ContainerAt(lib, files + [r], bytes + [b], c, id, attachment, source, directory, z)
  {
  }

  lemma MemberProvenance(
    lib: Library, files: seq<Record>, bytes: seq<Bytes>, c: nat, id: string, attachment: string, source: string,
    directory: string, z: Bytes,
    f: Member, b: Bytes
  )
    requires ContainerAt(lib, files, bytes, c, id, attachment, source, directory, z)
    requires f in lib.parse(z).value && f.kind.RegularEntry? && b == f.body.data
    ensures Provenance(lib, files, bytes, FromArchive, Some(id), attachment, source + "!" + Join(SourceOf(lib, f)), b,
                       [directory] + Nfc(lib, SourceOf(lib, f)))
  {
    hide SourceOf, Nfc;
    assert FoundAs(lib, files[c], source + "!" + Join(SourceOf(lib, f)), b, [directory] + Nfc(lib, SourceOf(lib, f)),
      f);
    assert MemberOf(lib, files[c], bytes[c], Some(id), attachment, source + "!" + Join(SourceOf(lib, f)), b,
      [directory] + Nfc(lib, SourceOf(lib, f)));
  }

  /** Entering a member that the extraction has omitted. */
  lemma OmissionEntered(
    lib: Library, cfg: Config, log: Journal, files: seq<Record>, bytes: seq<Bytes>, t: Tree,
    c: nat, id: string, attachment: string, source: string, directory: string, z: Bytes, f: Member, code: Code,
    r: Record
  )
    requires Ledger(lib, cfg, log, files, bytes) && Agree(files, bytes, t)
    requires ContainerAt(lib, files, bytes, c, id, attachment, source, directory, z)
    requires f in lib.parse(z).value && OmittedAs(f, code)
    requires r.id == RecordId(|files| + 1) && r.origin.FromArchive? && r.parent == Some(id)
    requires r.attachment == attachment
    requires r.source == source + "!" + Join(SourceOf(lib, f)) && Described(lib, r, f.body.data)
    ensures var reason := FromZip(code);
      && Ledger(lib, cfg, log, files + [RejectedFor(r, reason)], bytes + [f.body.data])
      && Agree(files + [RejectedFor(r, reason)], bytes + [f.body.data], t)
  {
    assert |bytes| == |files|;
    hide Ledger, Agree, SourceOf, Described, ContainerAt;
    var rejected := RejectedFor(r, FromZip(code));
    OmissionSincere(lib, cfg, log, files, bytes, c, id, attachment, source, directory, z, f, code, r);
    hide Sincere;
    LedgerSnoc(lib, cfg, log, files, bytes, rejected, f.body.data);
    AgreeRejected(files, bytes, t, rejected, f.body.data);
  }

  lemma OmissionSincere(
    lib: Library, cfg: Config, log: Journal, files: seq<Record>, bytes: seq<Bytes>,
    c: nat, id: string, attachment: string, source: string, directory: string, z: Bytes, f: Member, code: Code,
    r: Record
  )
    requires ContainerAt(lib, files, bytes, c, id, attachment, source, directory, z)
    requires f in lib.parse(z).value && OmittedAs(f, code)
    requires r.id == RecordId(|files| + 1) && r.origin.FromArchive? && r.parent == Some(id)
    requires r.attachment == attachment
    requires r.source == source + "!" + Join(SourceOf(lib, f)) && Described(lib, r, f.body.data)
    ensures Sincere(lib, cfg, log, files, bytes, RejectedFor(r, FromZip(code)), f.body.data)
  {
    hide SourceOf, RecordId, CleanContainer, NothingOmitted, Judged;
    var rejected := RejectedFor(r, FromZip(code));
    assert AboutMember(lib, cfg, files[c], z, rejected, f.body.data, f);
    assert ChildOf(lib, cfg, files[c], bytes[c], rejected, f.body.data);
    hide ChildOf, AboutMember;
    assert HasParent(lib, cfg, files, bytes, rejected, f.body.data);
  }
}
