/** Inspecting a ZIP before extraction: `preflight` and `Preflight` of internal/archive/zip.go. */
module Preflights {
  import opened Basics
  import opened Text
  import opened PosixPath
  import opened Streams
  import opened BoundedCopy
  import opened FileSystems
  import opened ZipNames
  import opened PathPlan
  import CentralDirectory

  const STORE := 0
  const DEFLATE := 8

  /** A member that passed, with the names it was found and will be created under. */
  datatype Entry = Entry(member: Member, source: Path, name: Path, isDir: bool, reject: Option<Code>)

  datatype RejectedEntry = RejectedEntry(source: Path, path: Path, code: Code, size: nat, sha: Digest)

  datatype Stats = Stats(
    entries: nat, files: nat, directories: nat, declared: nat, extracted: nat,
    rejected: seq<RejectedEntry>, sourcePaths: map<Path, Path>
  )

  const NO_STATS := Stats(0, 0, 0, 0, 0, [], map[])

  /** Every limit is positive. */
  predicate ValidLimits(l: Limits) {
    l.maxEntries > 0 && l.maxDeclaredBytes > 0 && l.maxFileBytes > 0 && l.maxTotalBytes > 0
    && l.maxRatio > 0 && l.maxPathDepth > 0 && l.maxPathBytes > 0
  }

  /** `validateLimits` */
  method CheckLimits(l: Limits) returns (ok: bool)
    ensures ok <==> ValidLimits(l)
  {
    ok := !(l.maxEntries <= 0 || l.maxDeclaredBytes <= 0 || l.maxFileBytes <= 0 || l.maxTotalBytes <= 0 ||
      l.maxRatio == 0 || l.maxPathDepth <= 0 || l.maxPathBytes <= 0);
  }

  // ----- What one member must be like -----

  function IsDir(f: Member): bool {
    f.kind.DirectoryEntry?
  }

  function RejectOf(f: Member): Option<Code> {
    match f.kind
    case SymlinkEntry => Some(Symlink)
    case SpecialEntry => Some(SpecialFile)
    case _ => None
  }

  /** A member that policy omits, and the code for it: a symbolic link, or anything else that is no regular file. */
  predicate OmittedAs(f: Member, code: Code) {
    (f.kind.SymlinkEntry? && code == Symlink) || (f.kind.SpecialEntry? && code == SpecialFile)
  }

  /** `file.Flags&(1<<0|1<<6|1<<13) != 0` */
  predicate IsEncrypted(f: Member) {
    f.flags & 0x2041 != 0
  }

  /** The bits of traditional encryption, of strong encryption and of masked headers. */
  lemma EncryptedBits(f: Member)
    ensures IsEncrypted(f) <==> f.flags & 1 == 1 || (f.flags >> 6) & 1 == 1 || (f.flags >> 13) & 1 == 1
  {
  }

  /** The name to use, if the gate can make sense of it. */
  function NameOf(lib: Library, f: Member): Option<string> {
    var r := if f.nonUtf8 then NameFrom(Walk(lib, f.name, f.extra), f.name) else Ok((f.name, false));
    if r.Ok? && !r.value.1 then lib.decode(r.value.0) else None
  }

  /** Whether a trailing slash is part of the syntax. */
  function SlashAllowed(f: Member, name: string): bool {
    IsDir(f) || (RejectOf(f).Some? && EndsInSlash(name))
  }

  /** The components of that name; of no use when there is none. */
  function SourceOf(lib: Library, f: Member): (p: Path)
    ensures p != []
  {
    var name := if NameOf(lib, f).Some? then NameOf(lib, f).value else "";
    Split(Trimmed(name, SlashAllowed(f, name)))
  }

  /** A slash at the end belongs to the name of a regular file, which is why that is never safe, and to no other. */
  lemma TrailingSlash(lib: Library, f: Member, s: string)
    ensures NameOf(lib, f) == Some(s) && (s == "" || s[|s| - 1] != '/') ==> Join(SourceOf(lib, f)) == s
    ensures NameOf(lib, f) == Some(s + "/") ==>
      Join(SourceOf(lib, f)) == if f.kind.RegularEntry? then s + "/" else s
  {
    JoinSplit(s);
    JoinSplit(s + "/");
  }

  /** So no regular file has such a name. */
  lemma NoFileEndsInSlash(lib: Library, f: Member, s: string, limits: Limits)
    requires f.kind.RegularEntry? && NameOf(lib, f) == Some(s + "/")
    ensures !MemberAccepted(lib, f, limits)
  {
    SplitLast(s, "");
    assert s + "/" + "" == s + "/";
    assert !SafeComponent(Last(Split(s + "/")));
  }

  function EntryOf(lib: Library, f: Member): Entry {
    Entry(f, SourceOf(lib, f), Nfc(lib, SourceOf(lib, f)), IsDir(f), RejectOf(f))
  }

  /** `ratioExceeds`, by quotient and remainder because the product may overflow. */
  function RatioExceeds(uncompressed: nat, compressed: nat, maxRatio: nat): bool {
    if compressed == 0 then true
    else
      var quotient, remainder := uncompressed / compressed, uncompressed % compressed;
      quotient > maxRatio || (quotient == maxRatio && remainder != 0)
  }

  /** It decides the comparison with the product all the same. */
  lemma RatioIsProduct(uncompressed: nat, compressed: nat, maxRatio: nat)
    ensures RatioExceeds(uncompressed, compressed, maxRatio) <==>
      compressed == 0 || uncompressed > maxRatio * compressed
  {
    if compressed != 0 {
      var q, r := uncompressed / compressed, uncompressed % compressed;
      assert uncompressed == q * compressed + r;
      if q > maxRatio {
        assert q * compressed >= (maxRatio + 1) * compressed;
      } else if q < maxRatio {
        assert maxRatio * compressed >= (q + 1) * compressed;
      }
    }
  }

  /** A directory member carries nothing, compressed or not. */
  predicate EmptyDirectory(f: Member, maxFileBytes: int) {
    && f.usize == 0 && f.crc == 0 && !(f.compression == STORE && f.csize != 0)
    && (f.csize != 0 ==>
          && f.csize <= maxFileBytes && f.rawOpens.None? && f.inflated.data == [] && f.inflated.end == Eof
          && f.inflateCloses.None? && !f.trailing)
  }

  ghost predicate MemberAccepted(lib: Library, f: Member, limits: Limits) {
    && !IsEncrypted(f) && f.compression in {STORE, DEFLATE}
    && (IsDir(f) ==> EmptyDirectory(f, limits.maxFileBytes))
    && NameOf(lib, f).Some?
    && var name := NameOf(lib, f).value;
    && SafeSyntax(name, SlashAllowed(f, name)) && WithinLimits(lib, name, SlashAllowed(f, name), limits)
    && ByteLen(Join(Nfc(lib, SourceOf(lib, f)))) <= limits.maxPathBytes
    && (f.usize <= limits.maxFileBytes || IsDir(f))
    && (f.usize > 0 ==> f.csize > 0 && f.usize <= limits.maxRatio * f.csize)
  }

  /**
   The name of an accepted member is never a guess: it is flagged as UTF-8 and is so, or it
   comes from a Unicode-path field that names the checksum of the raw name.
   */
  lemma AcceptedName(lib: Library, f: Member, limits: Limits) returns (fields: seq<Field>, data: Bytes, rest: Bytes)
    requires MemberAccepted(lib, f, limits)
    ensures !f.nonUtf8 ==> lib.decode(f.name) == NameOf(lib, f)
    ensures f.nonUtf8 ==>
      && Ordinary(fields) && |data| < 0x1_0000 && ValidUnicodePath(lib, f.name, data)
      && f.extra == EncodeFields(fields) + EncodeField(Field(UNICODE_PATH, data)) + rest
      && lib.decode(data[5..]) == NameOf(lib, f)
  {
    hide SafeSyntax, WithinLimits, EmptyDirectory, ByteLen, Join, SourceOf, Nfc, EncodeField, EncodeFields;
    fields, data, rest := [], [], [];
    if f.nonUtf8 {
      assert Walk(lib, f.name, f.extra).Recovered?;
      fields, data, rest := WalkParses(lib, f.name, f.extra);
    }
  }

  /** A name that is not flagged as UTF-8 is refused when no such field tells what it is. */
  lemma UnknownNameRefused(lib: Library, f: Member, limits: Limits, fields: seq<Field>)
    requires f.nonUtf8 && Ordinary(fields) && f.extra == EncodeFields(fields)
    ensures !MemberAccepted(lib, f, limits)
  {
    WalkFindsNone(lib, f.name, fields);
  }

  // ----- What the members must be like together -----

  function TotalDeclared(files: seq<Member>): nat {
    if files == [] then 0 else TotalDeclared(files[..|files| - 1]) + files[|files| - 1].usize
  }

  function ClaimOf(lib: Library, f: Member): Claim {
    Claim(SourceOf(lib, f), IsDir(f))
  }

  ghost function ClaimsMade(lib: Library, files: seq<Member>): (es: seq<Claim>)
    ensures |es| == |files|
    ensures forall i :: 0 <= i < |es| ==> es[i].path != []
  {
    Map(f => ClaimOf(lib, f), files)
  }

  ghost predicate AllAccepted(lib: Library, files: seq<Member>, limits: Limits) {
    forall f :: f in files ==> MemberAccepted(lib, f, limits)
  }

  /** The specification of `preflight`: nothing in it mentions an order. */
  ghost predicate Accepted(lib: Library, files: seq<Member>, limits: Limits) {
    && |files| <= limits.maxEntries
    && AllAccepted(lib, files, limits)
    && PathsAccepted(lib, ClaimsMade(lib, files))
    && TotalDeclared(files) <= limits.maxDeclaredBytes
  }

  ghost predicate NodesPlanned(lib: Library, nodes: map<Path, NodeInfo>, files: seq<Member>) {
    NodesOf(lib, nodes, AllClaims(ClaimsMade(lib, files)), FullPaths(ClaimsMade(lib, files)))
  }

  /** The entries `preflight` returns for members it accepts. */
  function EntriesOf(lib: Library, files: seq<Member>): (es: seq<Entry>) {
    Map(f => EntryOf(lib, f), files)
  }

  lemma EntriesSnoc(lib: Library, front: seq<Member>, f: Member)
    ensures EntriesOf(lib, front + [f]) == EntriesOf(lib, front) + [EntryOf(lib, f)]
  {
    MapConcat(g => EntryOf(lib, g), front, [f]);
    assert Map(g => EntryOf(lib, g), [f]) == [EntryOf(lib, f)];
  }

  lemma {:induction false} TotalSplit(a: seq<Member>, b: seq<Member>)
    ensures TotalDeclared(a + b) == TotalDeclared(a) + TotalDeclared(b)
  {
    if b == [] {
      assert a + b == a;
    } else {
      assert (a + b)[..|a + b| - 1] == a + b[..|b| - 1];
      TotalSplit(a, b[..|b| - 1]);
    }
  }

  lemma {:induction false} TotalRearranged(a: seq<Member>, b: seq<Member>)
    requires multiset(a) == multiset(b)
    ensures TotalDeclared(a) == TotalDeclared(b)
    decreases |a|
  {
    if a == [] {
      SameElements(a, b);
    } else {
      var front, x := a[..|a| - 1], a[|a| - 1];
      assert a == front + [x];
      var left, right := Peel(front, x, b);
      TotalRearranged(front, left + right);
      TotalSplit(left, [x]);
      TotalSplit(left + [x], right);
      TotalSplit(left, right);
      assert TotalDeclared([x]) == x.usize;
    }
  }

  lemma AcceptedTransfers(lib: Library, a: seq<Member>, b: seq<Member>, limits: Limits)
    requires multiset(a) == multiset(b) && Accepted(lib, a, limits)
    ensures Accepted(lib, b, limits)
  {
    SameElements(a, b);
    MapRearranged(f => ClaimOf(lib, f), a, b);
    OrderIrrelevant(lib, ClaimsMade(lib, a), ClaimsMade(lib, b));
    TotalRearranged(a, b);
  }

  /**
   Rearranging the members changes neither acceptance nor the declared total nor the
   node map that results.
   */
  lemma PreflightIgnoresOrder(lib: Library, a: seq<Member>, b: seq<Member>, limits: Limits)
    requires multiset(a) == multiset(b)
    ensures Accepted(lib, a, limits) <==> Accepted(lib, b, limits)
    ensures TotalDeclared(a) == TotalDeclared(b)
    ensures forall m, n :: NodesPlanned(lib, m, a) && NodesPlanned(lib, n, b) ==> m == n
  {
    if Accepted(lib, a, limits) {
      AcceptedTransfers(lib, a, b, limits);
    }
    if Accepted(lib, b, limits) {
      AcceptedTransfers(lib, b, a, limits);
    }
    TotalRearranged(a, b);
    MapRearranged(f => ClaimOf(lib, f), a, b);
    Rearranged(ClaimsMade(lib, a), ClaimsMade(lib, b));
    forall m, n | NodesPlanned(lib, m, a) && NodesPlanned(lib, n, b)
      ensures m == n
    {
      NodesUnique(lib, m, n, AllClaims(ClaimsMade(lib, a)), FullPaths(ClaimsMade(lib, a)));
    }
  }

  /** One more member: what it adds to acceptance. */
  lemma AcceptedSnoc(lib: Library, front: seq<Member>, f: Member, limits: Limits)
    requires Accepted(lib, front, limits)
    ensures ClaimsMade(lib, front + [f]) == ClaimsMade(lib, front) + [ClaimOf(lib, f)]
    ensures TotalDeclared(front + [f]) == TotalDeclared(front) + f.usize
    ensures Accepted(lib, front + [f], limits) <==> (
      && |front| < limits.maxEntries && MemberAccepted(lib, f, limits)
      && PathsAccepted(lib, ClaimsMade(lib, front) + [ClaimOf(lib, f)])
      && TotalDeclared(front) + f.usize <= limits.maxDeclaredBytes)
  {
    ClaimsSnoc(lib, front, f);
    assert (front + [f])[..|front + [f]| - 1] == front;
    AllAcceptedSnoc(lib, front, f, limits);
  }

  lemma ClaimsSnoc(lib: Library, front: seq<Member>, f: Member)
    ensures ClaimsMade(lib, front + [f]) == ClaimsMade(lib, front) + [ClaimOf(lib, f)]
  {
    MapConcat(g => ClaimOf(lib, g), front, [f]);
    assert Map(g => ClaimOf(lib, g), [f]) == [ClaimOf(lib, f)];
  }

  lemma AllAcceptedSnoc(lib: Library, front: seq<Member>, f: Member, limits: Limits)
    ensures AllAccepted(lib, front + [f], limits) <==> AllAccepted(lib, front, limits) && MemberAccepted(lib, f, limits)
  {
    assert forall g :: g in front + [f] <==> g in front || g == f;
  }

  /** A list is accepted only if every shorter list of its first members is. */
  lemma AcceptedPrefix(lib: Library, front: seq<Member>, back: seq<Member>, limits: Limits)
    requires Accepted(lib, front + back, limits)
    ensures Accepted(lib, front, limits)
  {
    TotalSplit(front, back);
    MapConcat(f => ClaimOf(lib, f), front, back);
    PathsAcceptedPrefix(lib, ClaimsMade(lib, front), ClaimsMade(lib, back));
  }

  lemma PathsAcceptedPrefix(lib: Library, es: seq<Claim>, fs: seq<Claim>)
    requires PathsAccepted(lib, es + fs)
    ensures PathsAccepted(lib, es)
  {
    assert forall e :: e in es ==> e in es + fs;
    ConsistentSubset(lib, AllClaims(es), AllClaims(es + fs));
    assert forall i :: 0 <= i < |es| ==> (es + fs)[i] == es[i];
  }

  // ----- What each code says -----

  /** A stream of a member has ended in the error that this code stands for. */
  predicate StreamFault(error: Option<StreamError>, code: Code) {
    error.Some? && match error.value
                   case Checksum => code == ChecksumError
                   case Algorithm => code == Unsupported
                   case Format => code == Invalid
                   case OtherError => code == Invalid
  }

  function BrokenBy(end: End): Option<StreamError> {
    match end
    case Eof => None
    case Broken(e) => Some(e)
  }

  /** The compressed body of a directory cannot be read to its end. */
  predicate DirectoryFault(f: Member, code: Code) {
    && IsDir(f) && f.csize != 0
    && (|| StreamFault(f.rawOpens, code) || StreamFault(BrokenBy(f.inflated.end), code)
        || StreamFault(f.inflateCloses, code))
  }

  /** A directory that announces data, or whose body holds some or goes on behind its end. */
  predicate HoldsData(f: Member) {
    || f.usize != 0 || f.crc != 0 || (f.compression == STORE && f.csize != 0)
    || (f.csize != 0 && (f.inflated.data != [] || f.trailing))
  }

  ghost predicate MemberFault(lib: Library, f: Member, limits: Limits, code: Code) {
    match code
    case Encrypted => IsEncrypted(f)
    case Unsupported => f.compression !in {STORE, DEFLATE} || DirectoryFault(f, code)
    case ChecksumError => DirectoryFault(f, code)
    case Invalid => IsDir(f) && (HoldsData(f) || f.inflated.stalls || DirectoryFault(f, code))
    case UnsafePath => NameOf(lib, f).None? || !SafeSyntax(NameOf(lib, f).value, SlashAllowed(f, NameOf(lib, f).value))
    case LimitExceeded =>
      || (NameOf(lib, f).Some? &&
        !WithinLimits(lib, NameOf(lib, f).value, SlashAllowed(f, NameOf(lib, f).value), limits))
      || ByteLen(Join(Nfc(lib, SourceOf(lib, f)))) > limits.maxPathBytes
      || (if IsDir(f) then f.csize != 0 && f.csize > limits.maxFileBytes else f.usize > limits.maxFileBytes)
      || (f.usize > 0 && (f.csize == 0 || f.usize > limits.maxRatio * f.csize))
    case _ => false
  }

  ghost predicate SomeMemberFault(lib: Library, files: seq<Member>, limits: Limits, code: Code) {
    exists f :: f in files && MemberFault(lib, f, limits, code)
  }

  /** What a code of `preflight` says about the members. */
  ghost predicate PlanFault(lib: Library, files: seq<Member>, limits: Limits, code: Code) {
    || SomeMemberFault(lib, files, limits, code)
    || (code == DuplicatePath && !PathsAccepted(lib, ClaimsMade(lib, files)))
    || (code == LimitExceeded && (|files| > limits.maxEntries || TotalDeclared(files) > limits.maxDeclaredBytes))
  }

  /** Accepted members have no fault of any kind, unless a directory stalls. */
  lemma AcceptedFaultless(lib: Library, files: seq<Member>, limits: Limits, code: Code)
    requires Accepted(lib, files, limits) && !MayStall(files)
    ensures !PlanFault(lib, files, limits, code)
  {
    hide ByteLen, Join, SafeSyntax, WithinLimits, NameOf, SourceOf, Nfc, TotalDeclared, PathsAccepted;
    forall f | f in files
      ensures !MemberFault(lib, f, limits, code)
    {
      assert MemberAccepted(lib, f, limits) && !f.inflated.stalls;
    }
  }

  /** A fault of some members is one of more of them. */
  lemma PlanFaultMore(lib: Library, front: seq<Member>, back: seq<Member>, limits: Limits, code: Code)
    requires PlanFault(lib, front, limits, code)
    ensures PlanFault(lib, front + back, limits, code)
  {
    hide MemberFault, PathsAccepted;
    if SomeMemberFault(lib, front, limits, code) {
      var f :| f in front && MemberFault(lib, f, limits, code);
      assert f in front + back;
    }
    TotalSplit(front, back);
    MapConcat(f => ClaimOf(lib, f), front, back);
    assert ClaimsMade(lib, front + back) == ClaimsMade(lib, front) + ClaimsMade(lib, back);
    if PathsAccepted(lib, ClaimsMade(lib, front + back)) {
      PathsAcceptedPrefix(lib, ClaimsMade(lib, front), ClaimsMade(lib, back));
    }
  }

  // ----- The streaming check -----

  /** Neither an operating-system error nor a misuse of the package. */
  predicate ArchiveFault(code: Code) {
    code != IOError && code != InvalidLimits
  }

  ghost predicate MayStall(files: seq<Member>) {
    exists f :: f in files && f.inflated.stalls
  }

  /** `validateDirectory` */
  method ValidateDirectory(ctx: Context, f: Member, maxBytes: int) returns (err: Option<Code>)
    modifies ctx
    ensures old(ctx.done) ==> ctx.done
    ensures err.None? ==> EmptyDirectory(f, maxBytes)
    ensures err.Some? ==> ctx.done || f.inflated.stalls || !EmptyDirectory(f, maxBytes)
    ensures err.Some? ==> ArchiveFault(err.value) && (err.value == Canceled ==> ctx.done)
    ensures IsDir(f) && err.Some? ==>
      match err.value
      case Canceled => true
      case LimitExceeded => f.csize != 0 && f.csize > maxBytes
      case Invalid => HoldsData(f) || f.inflated.stalls || DirectoryFault(f, Invalid)
      case code => code in {Unsupported, ChecksumError} && DirectoryFault(f, code)
  {
    if f.usize != 0 || f.crc != 0 || (f.compression == STORE && f.csize != 0) {
      return Some(Invalid);
    }
    if f.csize == 0 {
      return None;
    }
    if f.csize > maxBytes {
      return Some(LimitExceeded);
    }
    if f.rawOpens.Some? {
      return Some(Classify(FromSource(f.rawOpens.value)));
    }
    var src := new Source(f.inflated);
    var discard := new Sink(true);
    var _, readErr := CopyAtMost(ctx, discard, src, 0);
    if readErr == Some(Coded(LimitExceeded)) {
      return Some(Invalid);
    }
    if readErr.Some? {
      return Some(Classify(readErr.value));
    }
    if f.inflateCloses.Some? {
      return Some(Classify(FromSource(f.inflateCloses.value)));
    }
    if f.trailing {
      return Some(Invalid);
    }
    err := None;
  }

  lemma NameFound(lib: Library, f: Member, found: Result<(Bytes, bool), ()>)
    requires found == if f.nonUtf8 then NameFrom(Walk(lib, f.name, f.extra), f.name) else Ok((f.name, false))
    ensures NameOf(lib, f) == if found.Ok? && !found.value.1 then lib.decode(found.value.0) else None
  {
  }

  datatype Plan = Plan(entries: seq<Entry>, nodes: map<Path, NodeInfo>, declared: nat)

  /** The checks on one member up to its path: everything of `MemberAccepted` but the sizes. */
  method InspectMember(ctx: Context, lib: Library, f: Member, limits: Limits) returns (r: Result<Entry, Code>)
    modifies ctx
    ensures old(ctx.done) ==> ctx.done
    ensures r.Ok? ==> r.value == EntryOf(lib, f)
    ensures r.Ok? ==> (MemberAccepted(lib, f, limits) <==>
      (f.usize <= limits.maxFileBytes || IsDir(f)) &&
        (f.usize > 0 ==> f.csize > 0 && f.usize <= limits.maxRatio * f.csize))
    ensures r.Err? ==> ctx.done || f.inflated.stalls || !MemberAccepted(lib, f, limits)
    ensures r.Err? ==> ArchiveFault(r.error) && (r.error == Canceled ==> ctx.done)
    ensures r.Err? ==> r.error == Canceled || MemberFault(lib, f, limits, r.error)
  {
    hide EmptyDirectory, DirectoryFault, WithinLimits, SafeSyntax, ByteLen, Join, NameOf, NameFrom, Walk;
    var canceled := ContextError(ctx);
    if canceled.Some? {
      return Err(canceled.value);
    }
    if f.flags & 0x2041 != 0 {
      return Err(Encrypted);
    }
    if f.compression != STORE && f.compression != DEFLATE {
      return Err(Unsupported);
    }
    if IsDir(f) {
      var invalid := ValidateDirectory(ctx, f, limits.maxFileBytes);
      if invalid.Some? {
        return Err(invalid.value);
      }
    }
    var found := ZipEntryName(lib, f);
    NameFound(lib, f, found);
    if found.Err? {
      return Err(UnsafePath);
    }
    var decoded := lib.decode(found.value.0);
    var slash := decoded.Some? && SlashAllowed(f, decoded.value);
    var source := SafeName(lib, decoded, found.value.1, slash, limits);
    if source.Err? {
      return Err(source.error);
    }
    if ByteLen(Join(Nfc(lib, source.value))) > limits.maxPathBytes {
      return Err(LimitExceeded);
    }
    r := Ok(Entry(f, source.value, Nfc(lib, source.value), IsDir(f), RejectOf(f)));
  }

  /** One turn of the outer loop of `preflight`. */
  method AddEntry(
    ctx: Context, lib: Library, maps: Maps, declared: nat, f: Member, limits: Limits, ghost front: seq<Member>
  )
    returns (r: Result<(Entry, Maps, nat), Code>)
    requires Accepted(lib, front, limits) && |front| < limits.maxEntries && declared == TotalDeclared(front)
    requires Tracks(lib, maps, AllClaims(ClaimsMade(lib, front)), FullPaths(ClaimsMade(lib, front)))
    modifies ctx
    ensures old(ctx.done) ==> ctx.done
    ensures r.Ok? ==> Accepted(lib, front + [f], limits)
    ensures r.Ok? ==> r.value.0 == EntryOf(lib, f) && r.value.2 == TotalDeclared(front + [f])
    ensures r.Ok? ==>
      Tracks(lib, r.value.1, AllClaims(ClaimsMade(lib, front + [f])), FullPaths(ClaimsMade(lib, front + [f])))
    ensures r.Err? ==> ctx.done || f.inflated.stalls || !Accepted(lib, front + [f], limits)
    ensures r.Err? ==> ArchiveFault(r.error) && (r.error == Canceled ==> ctx.done)
    ensures r.Err? ==> r.error == Canceled || PlanFault(lib, front + [f], limits, r.error)
  {
    AcceptedSnoc(lib, front, f, limits);
    hide Accepted, PlanFault, MemberAccepted, MemberFault, PathsAccepted, Tracks, EntryOf, RatioExceeds;
    var entry := InspectMember(ctx, lib, f, limits);
    if entry.Err? {
      if entry.error != Canceled {
        FaultOfMember(lib, front, f, limits, entry.error);
      }
      return Err(entry.error);
    }
    EntryFields(lib, f);
    var next := AddMember(lib, maps, Claim(entry.value.source, entry.value.isDir), ClaimsMade(lib, front));
    if next.None? {
      ClashFault(lib, front + [f], limits);
      return Err(DuplicatePath);
    }
    var fits := CheckSizes(f, declared, limits);
    if !fits {
      SizeFault(lib, front, f, limits);
      return Err(LimitExceeded);
    }
    r := Ok((entry.value, next.value, declared + f.usize));
  }

  lemma EntryFields(lib: Library, f: Member)
    ensures Claim(EntryOf(lib, f).source, EntryOf(lib, f).isDir) == ClaimOf(lib, f)
  {
    hide SourceOf;
  }

  lemma FaultOfMember(lib: Library, front: seq<Member>, f: Member, limits: Limits, code: Code)
    requires MemberFault(lib, f, limits, code)
    ensures PlanFault(lib, front + [f], limits, code)
  {
    hide MemberFault;
    assert f in front + [f];
  }

  lemma ClashFault(lib: Library, files: seq<Member>, limits: Limits)
    requires !PathsAccepted(lib, ClaimsMade(lib, files))
    ensures PlanFault(lib, files, limits, DuplicatePath)
  {
    hide MemberFault, PathsAccepted;
  }

  /** The sizes that a member announces are within the limits. */
  predicate SizesFit(f: Member, declared: int, limits: Limits) {
    && (f.usize <= limits.maxFileBytes || IsDir(f)) && declared + f.usize <= limits.maxDeclaredBytes
    && (f.usize > 0 ==> f.csize > 0 && f.usize <= limits.maxRatio * f.csize)
  }

  lemma SizeFault(lib: Library, front: seq<Member>, f: Member, limits: Limits)
    requires !SizesFit(f, TotalDeclared(front), limits)
    ensures PlanFault(lib, front + [f], limits, LimitExceeded)
  {
    assert (front + [f])[..|front|] == front;
    hide SafeSyntax, WithinLimits, NameOf, ByteLen, SourceOf, PathsAccepted;
    if MemberFault(lib, f, limits, LimitExceeded) {
      FaultOfMember(lib, front, f, limits, LimitExceeded);
    }
  }

  /** The last checks of `preflight` on a member. */
  method CheckSizes(f: Member, declared: int, limits: Limits) returns (ok: bool)
    ensures ok <==> SizesFit(f, declared, limits)
  {
    if f.usize > limits.maxFileBytes && !IsDir(f) {
      return false;
    }
    if f.usize > limits.maxDeclaredBytes - declared {
      return false;
    }
    RatioIsProduct(f.usize, f.csize, limits.maxRatio);
    ok := !(f.usize > 0 && RatioExceeds(f.usize, f.csize, limits.maxRatio));
  }

  lemma TooManyMembers(lib: Library, files: seq<Member>, limits: Limits)
    requires |files| > limits.maxEntries
    ensures !Accepted(lib, files, limits) && PlanFault(lib, files, limits, LimitExceeded)
  {
  }

  lemma NothingPlanned(lib: Library, limits: Limits)
    requires ValidLimits(limits)
    ensures Accepted(lib, [], limits) && EntriesOf(lib, []) == [] && TotalDeclared([]) == 0
    ensures Tracks(lib, Maps(map[], map[], map[]), AllClaims(ClaimsMade(lib, [])), FullPaths(ClaimsMade(lib, [])))
  {
    assert ClaimsMade(lib, []) == [];
  }

  lemma TrackedPlan(lib: Library, maps: Maps, files: seq<Member>)
    requires Tracks(lib, maps, AllClaims(ClaimsMade(lib, files)), FullPaths(ClaimsMade(lib, files)))
    ensures NodesPlanned(lib, maps.nodes, files)
  {
  }

  /**
   `preflight`: accepts a member list exactly when the order-free specification
   does, unless it is canceled or a directory stream stalls, and returns the
   entries, the node map and the declared total that the specification fixes.
   */
  method Preflight(ctx: Context, lib: Library, files: seq<Member>, limits: Limits) returns (r: Result<Plan, Code>)
    requires ValidLimits(limits)
    modifies ctx
    ensures old(ctx.done) ==> ctx.done
    ensures r.Ok? ==> Accepted(lib, files, limits)
    ensures r.Ok? ==> r.value.entries == EntriesOf(lib, files) && r.value.declared == TotalDeclared(files)
    ensures r.Ok? ==> NodesPlanned(lib, r.value.nodes, files)
    ensures r.Err? ==> ctx.done || MayStall(files) || !Accepted(lib, files, limits)
    ensures r.Err? ==> ArchiveFault(r.error) && (r.error == Canceled ==> ctx.done)
    ensures r.Err? ==> r.error == Canceled || PlanFault(lib, files, limits, r.error)
  {
    hide Accepted, ClaimsMade, AllClaims, FullPaths, Tracks, TotalDeclared, EntriesOf, EntryOf, NodesPlanned,
      PlanFault;
    if |files| > limits.maxEntries {
      TooManyMembers(lib, files, limits);
      return Err(LimitExceeded);
    }
    var entries: seq<Entry> := [];
    var maps := Maps(map[], map[], map[]);
    var declared := 0;
    assert files[..0] == [];
    NothingPlanned(lib, limits);
    for i := 0 to |files|
      invariant old(ctx.done) ==> ctx.done
      invariant Accepted(lib, files[..i], limits)
      invariant entries == EntriesOf(lib, files[..i]) && declared == TotalDeclared(files[..i])
      invariant Tracks(lib, maps, AllClaims(ClaimsMade(lib, files[..i])), FullPaths(ClaimsMade(lib, files[..i])))
    {
      ghost var front := files[..i];
      assert files == (front + [files[i]]) + files[i + 1..] && files[..i + 1] == front + [files[i]];
      if Accepted(lib, files, limits) {
        AcceptedPrefix(lib, front + [files[i]], files[i + 1..], limits);
      }
      var step := AddEntry(ctx, lib, maps, declared, files[i], limits, front);
      if step.Err? {
        if step.error != Canceled {
          PlanFaultMore(lib, front + [files[i]], files[i + 1..], limits, step.error);
        }
        return Err(step.error);
      }
      EntriesSnoc(lib, front, files[i]);
      maps, declared := step.value.1, step.value.2;
      entries := entries + [step.value.0];
    }
    assert files[..|files|] == files;
    TrackedPlan(lib, maps, files);
    r := Ok(Plan(entries, maps.nodes, declared));
  }

  // ----- The exported entry point -----

  /** A readable file whose entry count is bounded and which the ZIP library parses. */
  ghost predicate Opens(lib: Library, m: Tree, path: Path, maxEntries: nat) {
    && path in m && m[path].File?
    && CentralDirectory.CountBounded(m[path].data, maxEntries)
    && lib.parse(m[path].data).Some?
  }

  /** The members of the ZIP file at `path`. */
  function MembersAt(lib: Library, m: Tree, path: Path): seq<Member>
    requires path in m && m[path].File? && lib.parse(m[path].data).Some?
  {
    lib.parse(m[path].data).value
  }

  /** What a code of `openReader` says about a file that can be read. */
  ghost predicate OpenFault(lib: Library, data: Bytes, maxEntries: nat, code: Code) {
    CentralDirectory.CountFault(data, maxEntries, code) || (code == Invalid && lib.parse(data).None?)
  }

  /** What a code of `Preflight` says about it. */
  ghost predicate FileFault(lib: Library, data: Bytes, limits: Limits, code: Code) {
    || (limits.maxEntries >= 0 && OpenFault(lib, data, limits.maxEntries, code))
    || (lib.parse(data).Some? && PlanFault(lib, lib.parse(data).value, limits, code))
  }

  /** A bounded file that is parsed and whose members are accepted has no fault. */
  lemma AcceptedFileFaultless(lib: Library, data: Bytes, limits: Limits, code: Code)
    requires limits.maxEntries >= 0 && CentralDirectory.CountBounded(data, limits.maxEntries)
    requires lib.parse(data).Some? && Accepted(lib, lib.parse(data).value, limits) && !MayStall(lib.parse(data).value)
    ensures !FileFault(lib, data, limits, code)
  {
    AcceptedFaultless(lib, lib.parse(data).value, limits, code);
    hide Accepted, PlanFault, MayStall;
    CentralDirectory.BoundedFaultless(data, limits.maxEntries, code);
  }

  /** `openReader`: count first, then let the ZIP library parse. */
  method OpenReader(lib: Library, fs: FileSystem, path: Path, maxEntries: nat) returns (r: Result<seq<Member>, Code>)
    requires fs.Valid()
    modifies fs`faults
    ensures fs.faults >= old(fs.faults)
    ensures r.Ok? ==>
      Opens(lib, fs.m, path, maxEntries) && r.value == MembersAt(lib, fs.m, path) && fs.faults == old(fs.faults)
    ensures r.Err? ==> fs.faults > old(fs.faults) || !Opens(lib, fs.m, path, maxEntries)
    ensures r.Err? ==> r.error in {Invalid, Unsupported, LimitExceeded}
    ensures r.Err? ==>
      if fs.faults > old(fs.faults) || path !in fs.m || !fs.m[path].File? then r.error == Invalid
      else OpenFault(lib, fs.m[path].data, maxEntries, r.error)
  {
    var data := fs.ReadFile(path);
    if data.None? {
      return Err(Invalid);
    }
    var tooMany := CentralDirectory.CheckEntryCount(data.value, maxEntries);
    if tooMany.Some? {
      return Err(tooMany.value);
    }
    var files := lib.parse(data.value);
    if files.None? {
      return Err(Invalid);
    }
    r := Ok(files.value);
  }

  /** The number of members that are not directories. */
  function CountFiles(files: seq<Member>): nat {
    if files == [] then 0
    else CountFiles(files[..|files| - 1]) + if IsDir(files[|files| - 1]) then 0 else 1
  }

  function DirNodes(nodes: map<Path, NodeInfo>): set<Path> {
    set k | k in nodes && nodes[k].isDir
  }

  /** The members omitted by policy, with the size they announce. */
  function Announced(lib: Library, files: seq<Member>): seq<RejectedEntry> {
    if files == [] then []
    else
      var front, e := files[..|files| - 1], EntryOf(lib, files[|files| - 1]);
      Announced(lib, front) +
      if e.reject.None? then [] else [RejectedEntry(e.source, e.name, e.reject.value, e.member.usize, "")]
  }

  /** The loop of `Preflight` over the plan. */
  method TallyEntries(lib: Library, ghost files: seq<Member>, entries: seq<Entry>)
    returns (count: nat, rejected: seq<RejectedEntry>)
    requires entries == EntriesOf(lib, files)
    ensures count == CountFiles(files) && rejected == Announced(lib, files)
  {
    count, rejected := 0, [];
    for i := 0 to |entries|
      invariant count == CountFiles(files[..i]) && rejected == Announced(lib, files[..i])
    {
      assert files[..i + 1][..i] == files[..i] && files[..i + 1][i] == files[i];
      var item := entries[i];
      if !item.isDir {
        count := count + 1;
      }
      if item.reject.Some? {
        rejected := rejected + [RejectedEntry(item.source, item.name, item.reject.value, item.member.usize, "")];
      }
    }
    assert files[..|files|] == files;
  }

  /** `Preflight` */
  method PreflightFile(
    ctx: Context, lib: Library, fs: FileSystem, path: Path, limits: Limits
  ) returns (r: Result<Stats, Code>)
    requires fs.Valid()
    modifies ctx, fs`faults
    ensures old(ctx.done) ==> ctx.done
    ensures fs.faults >= old(fs.faults)
    ensures r.Ok? ==> ValidLimits(limits) && Opens(lib, fs.m, path, limits.maxEntries)
    ensures r.Ok? ==>
      var files := MembersAt(lib, fs.m, path);
      && Accepted(lib, files, limits)
      && r.value.entries == |files| && r.value.files == CountFiles(files) && r.value.declared == TotalDeclared(files)
      && r.value.rejected == Announced(lib, files)
      && forall nodes :: NodesPlanned(lib, nodes, files) ==> r.value.directories == |DirNodes(nodes)|
    ensures r.Err? && ValidLimits(limits) ==>
      || ctx.done || fs.faults > old(fs.faults) || !Opens(lib, fs.m, path, limits.maxEntries)
      || MayStall(MembersAt(lib, fs.m, path)) || !Accepted(lib, MembersAt(lib, fs.m, path), limits)
    ensures r.Err? ==>
      (r.error == Canceled ==> ctx.done) && (r.error == InvalidLimits <==> !ValidLimits(limits)) && r.error != IOError
    ensures r.Err? && r.error != Canceled && r.error != InvalidLimits ==>
      if path !in fs.m || !fs.m[path].File? then r.error == Invalid
      else (r.error == Invalid && fs.faults > old(fs.faults)) || FileFault(lib, fs.m[path].data, limits, r.error)
  {
    var valid := CheckLimits(limits);
    if !valid {
      return Err(InvalidLimits);
    }
    var canceled := ContextError(ctx);
    if canceled.Some? {
      return Err(canceled.value);
    }
    var reader := OpenReader(lib, fs, path, limits.maxEntries);
    if reader.Err? {
      return Err(reader.error);
    }
    var files := reader.value;
    var plan := Preflight(ctx, lib, files, limits);
    if plan.Err? {
      return Err(plan.error);
    }
    hide Accepted, EntriesOf, CountFiles, Announced, TotalDeclared;
    var count, rejected := TallyEntries(lib, files, plan.value.entries);
    forall nodes | NodesPlanned(lib, nodes, files)
      ensures nodes == plan.value.nodes
    {
      NodesUnique(lib, nodes, plan.value.nodes, AllClaims(ClaimsMade(lib, files)), FullPaths(ClaimsMade(lib, files)));
    }
    r := Ok(Stats(|files|, count, |DirNodes(plan.value.nodes)|, plan.value.declared, 0, rejected, map[]));
  }
}
