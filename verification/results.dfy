/** What the reader of a published result may conclude from it. */
module Results {
  import opened Basics
  import opened Text
  import opened PosixPath
  import opened FileSystems
  import opened ZipNames
  import opened PathPlan
  import opened BoundedCopy
  import CentralDirectory
  import opened Preflights
  import opened Extraction
  import opened Decimals
  import opened Names
  import opened Placement
  import opened Publishing
  import opened StagingArea
  import opened Records
  import opened Accounts
  import opened Scanning
  import opened Scans
  import opened Engines
  import Clamd

  /** The records whose output is a copied file, by position. */
  ghost function CopiedRecords(files: seq<Record>): set<nat> {
    set i: nat | i < |files| && IsOut(files[i]) && files[i].action.Copied?
  }

  /**
   The regular files below the approved directory and the copied records correspond
   one to one, each file holding exactly the bytes its record describes.
   */
  lemma CopiesCorrespond(lib: Library, files: seq<Record>, bytes: seq<Bytes>, t: Tree)
    requires |bytes| == |files| && Agree(files, bytes, t) && forall i :: 0 <= i < |files| ==>
      Shaped(files[i]) && Described(lib, files[i], bytes[i])
    ensures forall i :: i in CopiedRecords(files) ==>
      && Out(files[i]) in t && t[Out(files[i])].File?
      && lib.sha(t[Out(files[i])].data) == files[i].sha && |t[Out(files[i])].data| == files[i].size
    ensures forall k :: k in t && t[k].File? ==> exists i :: i in CopiedRecords(files) && Out(files[i]) == k
    ensures forall i, j :: i in CopiedRecords(files) && j in CopiedRecords(files) && i != j ==>
      Out(files[i]) != Out(files[j])
  {
    hide NothingElse, OutputsSorted;
    forall k | k in t && t[k].File?
      ensures exists i :: i in CopiedRecords(files) && Out(files[i]) == k
    {
      var i := Accounted(files, t, k);
      assert i in CopiedRecords(files);
    }
    forall i, j | i in CopiedRecords(files) && j in CopiedRecords(files) && i != j
      ensures Out(files[i]) != Out(files[j])
    {
      DifferentOuts(files, i, j);
    }
  }

  lemma DifferentOuts(files: seq<Record>, i: nat, j: nat)
    requires OutputsSorted(files) && i < |files| && j < |files| && i != j && IsOut(files[i]) && IsOut(files[j])
    ensures Out(files[i]) != Out(files[j])
  {
    hide PathLess;
    var a, b := if i < j then i else j, if i < j then j else i;
    assert PathLess(Out(files[a]), Out(files[b]));
    PathLessIrreflexive(Out(files[a]));
  }

  /** The manifest lists the outputs of a batch in the order of their paths. */
  lemma OutputsListedInOrder(files: seq<Record>, bytes: seq<Bytes>, t: Tree, i: nat, j: nat)
    requires |bytes| == |files| && Agree(files, bytes, t) && i < j < |files| && IsOut(files[i]) && IsOut(files[j])
    ensures Less(Join(Out(files[i])), Join(Out(files[j])))
  {
    hide OutputsThere, NothingElse;
  }

  lemma Deeper(root: Path, p: Path, q: Path)
    ensures p < q ==> root + p < root + q
  {
    if p < q {
      assert root + q == (root + p) + q[|p|..];
    }
  }

  /** No output path is that of another record, and no copied file lies above another output. */
  lemma OutputsApart(files: seq<Record>, bytes: seq<Bytes>, m: Tree, root: Path, i: nat, j: nat)
    requires Rooted(m) && |bytes| == |files| && Agree(files, bytes, Sub(m, root))
    requires i < |files| && j < |files| && i != j && IsOut(files[i]) && IsOut(files[j])
    ensures Out(files[i]) != Out(files[j])
    ensures files[i].action.Copied? ==> !(Out(files[i]) <= Out(files[j]))
  {
    DifferentOuts(files, i, j);
    if files[i].action.Copied? {
      FileIsLeaf(m, root + Out(files[i]));
      Deeper(root, Out(files[i]), Out(files[j]));
      assert root + Out(files[j]) in m;
    }
  }

  /** Nothing that the daemon has not cleared is published, neither as a file nor as the contents of one. */
  lemma OnlyCleared(
    lib: Library, cfg: Config, log: Journal, files: seq<Record>, bytes: seq<Bytes>, t: Tree, k: Path
  )
    requires Ledger(lib, cfg, log, files, bytes) && Agree(files, bytes, t) && k in t && t[k].File?
    ensures Cleared(log, t[k].data)
  {
    hide NothingElse, Judged;
    var i := Accounted(files, t, k);
    assert Sincere(lib, cfg, log, files[..i], bytes[..i], files[i], bytes[i]);
  }

  /** An approved document, and every approved container, has been unpacked to its end within the limits. */
  lemma ContainersChecked(
    lib: Library, cfg: Config, log: Journal, files: seq<Record>, bytes: seq<Bytes>, i: nat
  )
    requires Ledger(lib, cfg, log, files, bytes) && i < |files| && files[i].decision.Approved?
    ensures files[i].detected.Ooxml? ==> CleanContainer(lib, cfg, bytes[i]) && NothingOmitted(lib, bytes[i])
    ensures files[i].action.Expanded? ==> CleanContainer(lib, cfg, bytes[i])
    ensures Cleared(log, bytes[i])
  {
    assert Sincere(lib, cfg, log, files[..i], bytes[..i], files[i], bytes[i]);
  }

  /** What "within the limits" means, limit by limit, for the members of an approved archive or document. */
  lemma WithinConfiguredLimits(lib: Library, cfg: Config, b: Bytes, f: Member)
    requires CleanContainer(lib, cfg, b) && f in lib.parse(b).value
    ensures |lib.parse(b).value| <= cfg.maxEntries
    ensures TotalDeclared(lib.parse(b).value) <= cfg.maxExtractedTotal
    ensures BytesRead(EntriesOf(lib, lib.parse(b).value)) <= cfg.maxExtractedTotal
    ensures !IsDir(f) ==> |f.body.data| <= cfg.maxExtractedFile && f.usize <= cfg.maxExtractedFile
    ensures !IsDir(f) ==> lib.crc(f.body.data) == f.crc
    ensures f.usize <= cfg.maxRatio * f.csize || f.usize == 0
    ensures |SourceOf(lib, f)| <= cfg.maxPathDepth && ByteLen(Join(SourceOf(lib, f))) <= cfg.maxPathBytes
    ensures ByteLen(Join(Nfc(lib, SourceOf(lib, f)))) <= cfg.maxPathBytes
    ensures AllSafe(SourceOf(lib, f))
  {
    var members := lib.parse(b).value;
    var i :| 0 <= i < |members| && members[i] == f;
    assert EntriesOf(lib, members)[i] == EntryOf(lib, f);
    assert EntriesOf(lib, members)[i] in EntriesOf(lib, members);
    hide PathsAccepted, BytesRead, TotalDeclared, NameOf, Nfc, ByteLen, EmptyDirectory, Split, Join;
    assert MemberAccepted(lib, f, LimitsFor(cfg, cfg.maxExtractedTotal));
    SourceJoined(lib, f);
  }

  lemma SourceJoined(lib: Library, f: Member)
    requires NameOf(lib, f).Some?
    ensures var name := NameOf(lib, f).value;
      Join(SourceOf(lib, f)) == Trimmed(name, SlashAllowed(f, name))
  {
    hide NameOf;
    var name := NameOf(lib, f).value;
    JoinSplit(Trimmed(name, SlashAllowed(f, name)));
  }

  /** The parent of a member is an earlier record: an approved, expanded upload with the same attachment. */
  lemma ParentBefore(
    lib: Library, cfg: Config, log: Journal, files: seq<Record>, bytes: seq<Bytes>, i: nat
  ) returns (j: nat)
    requires Ledger(lib, cfg, log, files, bytes) && i < |files| && files[i].origin.FromArchive?
    ensures j < i && files[i].parent == Some(files[j].id) && files[j].origin.Upload?
    ensures files[j].decision.Approved? && files[j].action.Expanded? && files[i].attachment == files[j].attachment
    ensures files[i].decision.Approved? ==> files[j].output.Some? && files[j].output.value < Out(files[i])
  {
    hide ChildOf, Shaped, Described, Vouched, Reasoned;
    assert Sincere(lib, cfg, log, files[..i], bytes[..i], files[i], bytes[i]);
    j :| 0 <= j < i && ChildOf(lib, cfg, files[..i][j], bytes[..i][j], files[i], bytes[i]);
    assert files[..i][j] == files[j];
    hide Ledger, Sincere;
    ChildFacts(lib, cfg, files[j], bytes[..i][j], files[i], bytes[i]);
  }

  lemma ChildFacts(lib: Library, cfg: Config, c: Record, z: Bytes, r: Record, b: Bytes)
    requires ChildOf(lib, cfg, c, z, r, b)
    ensures c.origin.Upload? && c.decision.Approved? && c.action.Expanded? && c.output.Some?
    ensures r.parent == Some(c.id) && r.attachment == c.attachment
    ensures r.decision.Approved? ==> c.output.value < Out(r)
  {
    var f :| f in lib.parse(z).value && AboutMember(lib, cfg, c, z, r, b, f);
    hide SourceOf, Nfc, ListedAs;
    assert Nfc(lib, SourceOf(lib, f)) != [];
  }

  /** An identifier is "f_" and a numeral of at least four digits. */
  ghost predicate IdOf(id: string, n: nat) {
    |id| >= 6 && id[..2] == "f_" && AllDigits(id[2..]) && Value(id[2..]) == n
  }

  /** Identifiers run in order and differ; every record has the shape the schema asks for. */
  lemma RecordsInOrder(lib: Library, cfg: Config, log: Journal, files: seq<Record>, bytes: seq<Bytes>)
    requires Ledger(lib, cfg, log, files, bytes)
    ensures forall i :: 0 <= i < |files| ==> files[i].id == RecordId(i + 1) && Shaped(files[i])
    ensures forall i :: 0 <= i < |files| ==> IdOf(files[i].id, i + 1)
    ensures forall i, j :: 0 <= i < j < |files| ==> files[i].id != files[j].id
  {
    forall i | 0 <= i < |files|
      ensures files[i].id == RecordId(i + 1) && Shaped(files[i]) && IdOf(files[i].id, i + 1)
    {
      assert Sincere(lib, cfg, log, files[..i], bytes[..i], files[i], bytes[i]);
      ValuePad(i + 1, 4);
      assert RecordId(i + 1)[2..] == Pad(i + 1, 4);
    }
    forall i, j | 0 <= i < j < |files|
      ensures files[i].id != files[j].id
    {
      assert Value(files[i].id[2..]) != Value(files[j].id[2..]);
    }
  }

  /**
   Each upload of the batch has exactly one record, in order and about that upload;
   all others are about members of archives.
   */
  lemma UploadsDecidedOnce(
    lib: Library, subjects: seq<Subject>, files: seq<Record>, bytes: seq<Bytes>
  ) returns (heads: seq<nat>)
    requires Decided(lib, subjects, files, bytes) && forall s :: s in subjects ==> s.origin.Upload?
    ensures |heads| == |subjects| && forall k, l :: 0 <= k < l < |heads| ==> heads[k] < heads[l]
    ensures forall k :: 0 <= k < |heads| ==> heads[k] < |files| && About(files[heads[k]]) == subjects[k]
    ensures forall j :: 0 <= j < |files| ==> (files[j].origin.Upload? <==> j in heads)
  {
    heads :| Blocks(lib, subjects, files, bytes, heads);
    BlockBounds(lib, subjects, files, bytes, heads);
    forall k {:trigger heads[k]} | 0 <= k < |heads|
      ensures heads[k] < |files| && About(files[heads[k]]) == subjects[k]
    {
      NthBlock(lib, subjects, files, bytes, heads, k);
    }
    hide Blocks, EndOf;
    forall k, l | 0 <= k < l < |heads|
      ensures heads[k] < heads[l]
    {
      HeadsIncrease(heads, |files|, k, l);
    }
    forall j | 0 <= j < |files|
      ensures files[j].origin.Upload? <==> j in heads
    {
      var k := Locate(heads, |files|, j);
      if j == heads[k] {
        assert subjects[k] in subjects;
      } else {
        InBlock(lib, subjects, files, bytes, heads, k, j);
      }
    }
  }

  /** What an upload is called behind its number, if its own name is plain. */
  ghost predicate TitleFits(lib: Library, action: Action, name: string, title: string) {
    PlainName(lib, name, 200) ==>
      && (action.Copied? || !EndsInZip(name) ==> title == name)
      && (action.Expanded? ==>
            forall stem: string, e: string {:trigger stem + "." + e} :: ZipLetters(e) && name == stem + "." + e ==>
              title == if stem == "" then "archive" else stem)
  }

  lemma TitleIsName(lib: Library, action: Action, name: string)
    requires !action.Omitted?
    ensures TitleFits(lib, action, name, Title(lib, action, name))
  {
    hide PlainName, OutputName, ArchiveDirectory, EndsInZip, ZipLetters;
    if PlainName(lib, name, 200) {
      PlainNameKept(lib, name, 200);
      if !EndsInZip(name) {
        OtherDirectory(lib, name);
      }
      forall stem: string, e: string {:trigger stem + "." + e} | ZipLetters(e) && name == stem + "." + e
        ensures ArchiveDirectory(lib, name) == if stem == "" then "archive" else stem
      {
        ZipDirectory(lib, stem, e);
      }
    }
  }

  /**
   An approved upload is published under its number in the batch, counted from one, and its
   own name if that is plain; an archive under its name without the extension.
   */
  lemma PublishedUnderItsName(
    lib: Library, cfg: Config, marshal: Marshal, batch: seq<InputFile>, files: seq<Record>, bytes: seq<Bytes>,
    log: Journal, s: Tree, k: nat
  ) returns (c: nat, digits: string, title: string)
    requires Delivered(lib, cfg, marshal, batch, files, bytes, log, s) && k < |batch|
    ensures c < |files| && About(files[c]) == UploadSubject(batch[k]) && CountUploads(files[..c]) == k
    ensures files[c].decision.Approved? ==>
      && Out(files[c]) == [digits + "-" + title] && Out(files[c]) in Sub(s, [APPROVED])
      && |digits| >= 2 && AllDigits(digits) && Value(digits) == k + 1
      && TitleFits(lib, files[c].action, batch[k].name, title)
  {
    hide Listing, AllModes, FileBits, DirBits, SummaryOf, AllTitled, TitleFits, Title, NumberedName, Value, Agree,
      Decided, Ledger, UploadSubjects, CountUploads, Manifest;
    SubjectOf(batch, k);
    c := NthUpload(lib, UploadSubjects(batch), files, bytes, k);
    title := Title(lib, files[c].action, batch[k].name);
    digits := NumberedParts(k, |batch|, title);
    if files[c].decision.Approved? {
      ApprovedIsOut(lib, cfg, log, files, bytes, c);
      TitleIsName(lib, files[c].action, batch[k].name);
      TitledAt(lib, files, |batch|, c);
      OutIsThere(files, bytes, Sub(s, [APPROVED]), c);
    }
  }

  lemma SubjectOf(batch: seq<InputFile>, k: nat)
    requires k < |batch|
    ensures UploadSubjects(batch)[k] == UploadSubject(batch[k])
    ensures forall s :: s in UploadSubjects(batch) ==> s.origin.Upload?
  {
  }

  lemma OutIsThere(files: seq<Record>, bytes: seq<Bytes>, t: Tree, i: nat)
    requires |bytes| == |files| && Agree(files, bytes, t) && i < |files| && IsOut(files[i])
    ensures Out(files[i]) in t
  {
    hide NothingElse, OutputsSorted;
  }

  /** The record of the k-th upload. */
  lemma NthUpload(lib: Library, subjects: seq<Subject>, files: seq<Record>, bytes: seq<Bytes>, k: nat) returns (c: nat)
    requires Decided(lib, subjects, files, bytes) && k < |subjects| && forall s :: s in subjects ==> s.origin.Upload?
    ensures c < |files| && About(files[c]) == subjects[k] && CountUploads(files[..c]) == k
  {
    hide Blocks, EachOnce, Obligations, CountUploads;
    var heads: seq<nat> :| Blocks(lib, subjects, files, bytes, heads);
    HeadsMatch(lib, subjects, files, bytes, heads);
    NthBlock(lib, subjects, files, bytes, heads, k);
    UploadsBefore(lib, subjects, files, bytes, heads, k);
    c := heads[k];
  }

  lemma HeadsMatch(lib: Library, subjects: seq<Subject>, files: seq<Record>, bytes: seq<Bytes>, heads: seq<nat>)
    requires Blocks(lib, subjects, files, bytes, heads)
    ensures |heads| == |subjects|
  {
  }

  lemma TitledAt(lib: Library, files: seq<Record>, total: nat, i: nat)
    requires AllTitled(lib, files, total) && i < |files|
    ensures Titled(lib, files[i], CountUploads(files[..i]), total)
  {
  }

  lemma ApprovedIsOut(lib: Library, cfg: Config, log: Journal, files: seq<Record>, bytes: seq<Bytes>, i: nat)
    requires Ledger(lib, cfg, log, files, bytes) && i < |files| && files[i].decision.Approved?
    ensures |bytes| == |files| && IsOut(files[i]) && !files[i].action.Omitted?
  {
    assert Sincere(lib, cfg, log, files[..i], bytes[..i], files[i], bytes[i]);
  }

  /** Every upload record begins a block. */
  lemma HeadOf(lib: Library, subjects: seq<Subject>, files: seq<Record>, bytes: seq<Bytes>, heads: seq<nat>, c: nat)
    returns (k: nat)
    requires Blocks(lib, subjects, files, bytes, heads) && c < |files| && files[c].origin.Upload?
    ensures |bytes| == |files| && k < |heads| == |subjects| && heads[k] == c
    ensures BlockAt(lib, subjects[k], files, bytes, c, EndOf(heads, k, |files|))
  {
    hide BlockAt;
    BlockBounds(lib, subjects, files, bytes, heads);
    k := Locate(heads, |files|, c);
    if heads[k] != c {
      InBlock(lib, subjects, files, bytes, heads, k, c);
    }
    NthBlock(lib, subjects, files, bytes, heads, k);
  }

  /** A block is as long as its first record obliges it to be. */
  lemma BlockLength(lib: Library, s: Subject, files: seq<Record>, bytes: seq<Bytes>, from: nat, to: nat)
    requires |bytes| == |files| && BlockAt(lib, s, files, bytes, from, to)
    ensures from < to <= |files| && to - from - 1 == |Obligations(lib, files[from], bytes[from])|
    ensures EachOnce(EnvelopeOf(files[from]), Obligations(lib, files[from], bytes[from]), files[from + 1..to])
  {
    hide EachOnce, Obligations;
    EachOnceCount(EnvelopeOf(files[from]), Obligations(lib, files[from], bytes[from]), files[from + 1..to]);
  }

  /**
   The children of an expanded archive are in one-to-one correspondence with its
   files: as many, and each file is what one of them is about.
   */
  lemma MembersDecidedOnce(
    lib: Library, cfg: Config, log: Journal, subjects: seq<Subject>, files: seq<Record>, bytes: seq<Bytes>,
    c: nat
  ) returns (n: nat)
    requires Ledger(lib, cfg, log, files, bytes) && Decided(lib, subjects, files, bytes)
    requires forall s :: s in subjects ==> s.origin.Upload? && s.parent.None?
    requires c < |files| && files[c].origin.Upload? && IsOut(files[c]) && files[c].action.Expanded?
    ensures lib.parse(bytes[c]).Some? && n == CountFiles(lib.parse(bytes[c]).value) && c + n < |files|
    ensures forall j :: 0 <= j < |files| ==> (files[j].parent == Some(files[c].id) <==> c < j <= c + n)
    ensures EachOnce(EnvelopeOf(files[c]), ContentsOf(lib, lib.parse(bytes[c]).value), files[c + 1..c + n + 1])
  {
    hide Blocks, BlockAt, EachOnce, EndOf, Ledger;
    ExpandedParses(lib, cfg, log, files, bytes, c);
    FilesInCount(lib.parse(bytes[c]).value);
    var heads: seq<nat> :| Blocks(lib, subjects, files, bytes, heads);
    var k := HeadOf(lib, subjects, files, bytes, heads, c);
    var to := EndOf(heads, k, |files|);
    BlockLength(lib, subjects[k], files, bytes, c, to);
    n := to - c - 1;
    ChildrenInBlock(lib, cfg, log, subjects, files, bytes, heads, k);
  }

  lemma ExpandedParses(
    lib: Library, cfg: Config, log: Journal, files: seq<Record>, bytes: seq<Bytes>, c: nat
  )
    requires Ledger(lib, cfg, log, files, bytes) && c < |files| && IsOut(files[c]) && files[c].action.Expanded?
    ensures |bytes| == |files| && lib.parse(bytes[c]).Some?
  {
    assert Sincere(lib, cfg, log, files[..c], bytes[..c], files[c], bytes[c]);
  }

  lemma ChildrenInBlock(
    lib: Library, cfg: Config, log: Journal, subjects: seq<Subject>, files: seq<Record>, bytes: seq<Bytes>,
    heads: seq<nat>, k: nat
  )
    requires Ledger(lib, cfg, log, files, bytes) && Blocks(lib, subjects, files, bytes, heads) && k < |heads|
    requires forall s :: s in subjects ==> s.origin.Upload? && s.parent.None?
    ensures heads[k] < EndOf(heads, k, |files|) <= |files|
    ensures forall j :: 0 <= j < |files| ==>
      (files[j].parent == Some(files[heads[k]].id) <==> heads[k] < j < EndOf(heads, k, |files|))
  {
    hide Blocks, Ledger, EndOf;
    BlockBounds(lib, subjects, files, bytes, heads);
    assert heads[k] < EndOf(heads, k, |files|) <= |files|;
    RecordsInOrder(lib, cfg, log, files, bytes);
    forall j | 0 <= j < |files|
      ensures files[j].parent == Some(files[heads[k]].id) <==> heads[k] < j < EndOf(heads, k, |files|)
    {
      ChildInBlock(lib, subjects, files, bytes, heads, k, j);
    }
  }

  // ----- Records of members -----

  /** The record of a member names its archive, and its path in it. */
  predicate NamesMember(lib: Library, c: Record, r: Record, f: Member) {
    r.parent == Some(c.id) && r.source == c.source + "!" + Join(SourceOf(lib, f))
  }

  lemma SameSuffix(front: string, a: string, b: string)
    requires front + a == front + b
    ensures a == b
  {
    assert a == (front + a)[|front|..] && b == (front + b)[|front|..];
  }

  /** In an accepted archive the path tells the member. */
  lemma SameSource(lib: Library, members: seq<Member>, limits: Limits, f: Member, g: Member)
    requires Accepted(lib, members, limits) && f in members && g in members
    requires Join(SourceOf(lib, f)) == Join(SourceOf(lib, g))
    ensures f == g
  {
    SourceSlashFree(lib, f);
    SourceSlashFree(lib, g);
    hide SourceOf, SlashFree, Join, Consistent, AllClaims, TotalDeclared, AllAccepted;
    var es := ClaimsMade(lib, members);
    var i :| 0 <= i < |members| && members[i] == f;
    var j :| 0 <= j < |members| && members[j] == g;
    JoinInjective(SourceOf(lib, f), SourceOf(lib, g));
    assert es[i].path == es[j].path;
  }

  lemma SourceSlashFree(lib: Library, f: Member)
    ensures SlashFree(SourceOf(lib, f))
  {
    hide NameOf;
  }

  /** The archive a member belongs to, and what is known of it. */
  lemma ArchiveOf(
    lib: Library, cfg: Config, log: Journal, files: seq<Record>, bytes: seq<Bytes>, c: nat, i: nat
  )
    requires Ledger(lib, cfg, log, files, bytes) && c < |files| && i < |files| && files[i].origin.FromArchive?
    requires files[i].parent == Some(files[c].id)
    ensures c < i && lib.parse(bytes[c]).Some? && ChildOf(lib, cfg, files[c], bytes[c], files[i], bytes[i])
    ensures Accepted(lib, lib.parse(bytes[c]).value, LimitsFor(cfg, cfg.maxExtractedTotal))
  {
    hide ChildOf, Reasoned, CleanContainer;
    RecordsInOrder(lib, cfg, log, files, bytes);
    assert Sincere(lib, cfg, log, files[..i], bytes[..i], files[i], bytes[i]);
    var j :| 0 <= j < i && ChildOf(lib, cfg, files[..i][j], bytes[..i][j], files[i], bytes[i]);
    assert files[..i][j] == files[j];
    ChildFacts(lib, cfg, files[j], bytes[j], files[i], bytes[i]);
    assert j == c;
    assert Sincere(lib, cfg, log, files[..c], bytes[..c], files[c], bytes[c]);
    CleanAccepted(lib, cfg, bytes[c]);
  }

  lemma CleanAccepted(lib: Library, cfg: Config, b: Bytes)
    requires CleanContainer(lib, cfg, b)
    ensures lib.parse(b).Some? && Accepted(lib, lib.parse(b).value, LimitsFor(cfg, cfg.maxExtractedTotal))
  {
    hide Accepted;
  }

  /** The record of a member is about the member it names. */
  lemma AboutNamed(
    lib: Library, cfg: Config, log: Journal, files: seq<Record>, bytes: seq<Bytes>, c: nat, i: nat, f: Member
  )
    requires Ledger(lib, cfg, log, files, bytes) && c < |files| && i < |files| && files[i].origin.FromArchive?
    requires lib.parse(bytes[c]).Some? && f in lib.parse(bytes[c]).value && NamesMember(lib, files[c], files[i], f)
    ensures AboutMember(lib, cfg, files[c], bytes[c], files[i], bytes[i], f)
  {
    ArchiveOf(lib, cfg, log, files, bytes, c, i);
    hide Ledger, Accepted, SourceOf;
    var g :| g in lib.parse(bytes[c]).value && AboutMember(lib, cfg, files[c], bytes[c], files[i], bytes[i], g);
    SameSuffix(files[c].source + "!", Join(SourceOf(lib, f)), Join(SourceOf(lib, g)));
    SameSource(lib, lib.parse(bytes[c]).value, LimitsFor(cfg, cfg.maxExtractedTotal), f, g);
  }

  /** A record that speaks of an omission is about the member which policy omits. */
  lemma OmissionNamed(
    lib: Library, cfg: Config, log: Journal, files: seq<Record>, bytes: seq<Bytes>, c: nat, i: nat, f: Member,
    code: Code
  )
    requires Ledger(lib, cfg, log, files, bytes) && c < |files| && i < |files| && files[i].origin.FromArchive?
    requires lib.parse(bytes[c]).Some? && f in lib.parse(bytes[c]).value && NamesMember(lib, files[c], files[i], f)
    requires OmissionReason(lib, files[..i], bytes[..i], files[i], bytes[i], code)
    ensures OmittedAs(f, code)
  {
    assert |bytes| == |files|;
    hide Ledger, Accepted, SourceOf, Shaped, RecordId, ChildOf, IdOf, LimitsFor, OmittedFrom;
    ArchiveOf(lib, cfg, log, files, bytes, c, i);
    RecordsInOrder(lib, cfg, log, files, bytes);
    var j :| 0 <= j < i && OmittedFrom(lib, files[..i][j], bytes[..i][j], files[i], bytes[i], code);
    assert files[..i][j] == files[j] && bytes[..i][j] == bytes[j];
    var g := OmittedMember(lib, files[j], bytes[j], files[i], bytes[i], code);
    assert j == c;
    SameSuffix(files[c].source + "!", Join(SourceOf(lib, f)), Join(SourceOf(lib, g)));
    SameSource(lib, lib.parse(bytes[c]).value, LimitsFor(cfg, cfg.maxExtractedTotal), f, g);
  }

  lemma OmittedMember(lib: Library, c: Record, z: Bytes, r: Record, b: Bytes, code: Code) returns (g: Member)
    requires OmittedFrom(lib, c, z, r, b, code)
    ensures r.parent == Some(c.id) && lib.parse(z).Some? && g in lib.parse(z).value && OmittedAs(g, code)
    ensures r.source == c.source + "!" + Join(SourceOf(lib, g))
  {
    hide SourceOf;
    g :| g in lib.parse(z).value && OmittedAs(g, code) && r.source == c.source + "!" + Join(SourceOf(lib, g));
  }

  /** No defect of a container is reported as a link or a special file. */
  lemma NoLinkFault(lib: Library, b: Bytes, limits: Limits, code: Code)
    requires code in {Symlink, SpecialFile}
    ensures !ContainerFault(lib, b, limits, code)
  {
    hide PathsAccepted, Extractable, EntriesOf, BytesRead, OverLimit, CentralDirectory.Classic,
      CentralDirectory.TooMany, CentralDirectory.Damaged, CentralDirectory.Chosen;
  }

  /**
   Unless the detector has said so, or it is a document with such a member in it, a member is
   reported as a link or a special file only if it is one.
   */
  lemma LinksAreLinks(
    lib: Library, cfg: Config, log: Journal, files: seq<Record>, bytes: seq<Bytes>, c: nat, i: nat, f: Member,
    code: Code
  )
    requires Ledger(lib, cfg, log, files, bytes) && c < |files| && i < |files| && files[i].origin.FromArchive?
    requires lib.parse(bytes[c]).Some? && f in lib.parse(bytes[c]).value && NamesMember(lib, files[c], files[i], f)
    requires code in {Symlink, SpecialFile} && files[i].reason == Some(FromZip(code))
    requires !DetectionFailed(log, bytes[i], ZipError(code)) && !files[i].detected.Ooxml?
    ensures OmittedAs(f, code)
  {
    hide SourceOf, ContainerFault, OmissionReason, NamesMember, AboutMember, HasParent, Vouched, Judged, Described;
    assert Sincere(lib, cfg, log, files[..i], bytes[..i], files[i], bytes[i]);
    NoOtherLinks(lib, cfg, log, files[..i], files[i], bytes[i], code);
    hide ContainerRefused;
    OmissionNamed(lib, cfg, log, files, bytes, c, i, f, code);
  }

  lemma NoOtherLinks(
    lib: Library, cfg: Config, log: Journal, files: seq<Record>, r: Record, b: Bytes, code: Code
  )
    requires code in {Symlink, SpecialFile} && !r.detected.Ooxml?
    ensures !ContainerRefused(lib, cfg, log, files, r.origin, r.detected, b, code)
  {
    hide ContainerFault, Seen, HasOmission, TooManyFiles;
    forall limits
      ensures !ContainerFault(lib, b, limits, code)
    {
      NoLinkFault(lib, b, limits, code);
    }
  }

  // ----- Good files are approved -----

  /** Nothing in the policy is against a file of this kind. */
  predicate Harmless(cfg: Config, d: Detection) {
    && !(cfg.rejectExecutables && d.kind in {Executable, Package}) && !(cfg.rejectMismatch && d.mismatch)
    && (d.kind.ArchiveZip? ==> cfg.archives && cfg.zipAllowed)
  }

  /** The detector has found nothing against these bytes, and the daemon nothing but that they are clean. */
  ghost predicate WellSpokenOf(cfg: Config, log: Journal, b: Bytes) {
    && (forall f {:trigger Examined(b, f)} :: Examined(b, f) in log ==> f.Ok? && Harmless(cfg, f.value))
    && (forall v :: Judged(log, b, v) ==> v == Clamd.Clean)
    && Lost(b) !in log && Expired(b) !in log
  }

  /** A container that can be read and unpacked within this budget and the limits that are configured. */
  ghost predicate GoodContainer(lib: Library, cfg: Config, b: Bytes, left: int) {
    && left > 0 && cfg.maxExtractedFile < MAX_INT64 && lib.parse(b).Some?
    && CentralDirectory.CountBounded(b, cfg.maxEntries)
    && var members := lib.parse(b).value;
    var limits := Limits(cfg.maxEntries, left, cfg.maxExtractedFile, left, cfg.maxRatio, cfg.maxPathDepth,
                         cfg.maxPathBytes);
    && Accepted(lib, members, limits) && !MayStall(members)
    && Extractable(lib, EntriesOf(lib, members), limits) && !BodiesStall(EntriesOf(lib, members))
  }

  /** Such a container has none of the faults for which one is refused, within this budget or a larger one. */
  lemma GoodContainerFaultless(lib: Library, cfg: Config, b: Bytes, left: nat, more: nat, code: Code)
    requires GoodContainer(lib, cfg, b, left) && left <= more
    ensures !ContainerFault(lib, b, LimitsFor(cfg, more), code)
  {
    var members := lib.parse(b).value;
    hide Accepted, Extractable, MayStall, BodiesStall, FileFault, BodiesFault, CentralDirectory.CountBounded;
    BudgetLarger(lib, cfg, members, left, more);
    AcceptedFileFaultless(lib, b, LimitsFor(cfg, more), code);
    ExtractableFaultless(lib, EntriesOf(lib, members), LimitsFor(cfg, more), code);
  }

  /** What is needed of the bytes of a file, of the engines and of the batch. */
  ghost predicate GoodFile(
    lib: Library, cfg: Config, log: Journal, files: seq<Record>, r: Record, b: Bytes, uploads: nat, left: int
  ) {
    && WellSpokenOf(cfg, log, b)
    && (r.origin.Upload? && Seen(log, b, ArchiveZip) ==>
          && GoodContainer(lib, cfg, b, left)
          && uploads + (|files| - CountUploads(files)) + CountFiles(lib.parse(b).value) <= cfg.maxDiscovered)
    && (Seen(log, b, Ooxml) ==> GoodContainer(lib, cfg, b, left) && NothingOmitted(lib, b))
  }

  /**
   A good upload is approved: its size, its name, what the engines have said of it and,
   if it is a container, what is in it leave no reason to reject it. `left` is what the
   whole run has left of the budget.
   */
  lemma GoodUploadApproved(
    lib: Library, cfg: Config, log: Journal, files: seq<Record>, bytes: seq<Bytes>, uploads: nat, left: int, i: nat
  )
    requires Ledger(lib, cfg, log, files, bytes) && i < |files| && Truthful(log, uploads, left, false)
    requires files[i].origin.Upload? && files[i].size <= cfg.maxInputFileSize
    requires cfg.excludes([OutputName(lib, files[i].source, MAX_NAME)]).Included?
    requires GoodFile(lib, cfg, log, files[..i], files[i], bytes[i], uploads, left)
    ensures files[i].decision.Approved?
  {
    var r, b := files[i], bytes[i];
    assert Sincere(lib, cfg, log, files[..i], bytes[..i], r, b);
    hide Ledger, GoodFile, Truthful, Reasoned, OutputName;
    if r.decision.Rejected? {
      assert forall code :: !OmissionReason(lib, files[..i], bytes[..i], r, b, code);
      hide OmissionReason;
      NoReason(lib, cfg, log, files[..i], bytes[..i], r, b, uploads, left);
    }
  }

  /**
   So is a good member: a regular one, at a path that is not excluded, of which the engines have
   said nothing bad; and it is published at its own path below the directory of its archive.
   */
  lemma GoodMemberApproved(
    lib: Library, cfg: Config, log: Journal, files: seq<Record>, bytes: seq<Bytes>, uploads: nat, left: int,
    c: nat, i: nat, f: Member
  )
    requires Ledger(lib, cfg, log, files, bytes) && Truthful(log, uploads, left, false)
    requires c < |files| && i < |files| && files[i].origin.FromArchive?
    requires lib.parse(bytes[c]).Some? && f in lib.parse(bytes[c]).value && NamesMember(lib, files[c], files[i], f)
    requires f.kind.RegularEntry? && cfg.excludes(Nfc(lib, SourceOf(lib, f))).Included?
    requires GoodFile(lib, cfg, log, files[..i], files[i], bytes[i], uploads, left)
    ensures files[i].decision.Approved? && Out(files[i]) == Out(files[c]) + Nfc(lib, SourceOf(lib, f))
  {
    hide GoodFile, Truthful, Reasoned, SourceOf, Nfc, OmissionReason, NamesMember, Vouched, HasParent, Described;
    var r, b := files[i], bytes[i];
    AboutNamed(lib, cfg, log, files, bytes, c, i, f);
    assert Sincere(lib, cfg, log, files[..i], bytes[..i], r, b);
    if r.decision.Rejected? {
      forall code
        ensures !OmissionReason(lib, files[..i], bytes[..i], r, b, code)
      {
        if OmissionReason(lib, files[..i], bytes[..i], r, b, code) {
          OmissionNamed(lib, cfg, log, files, bytes, c, i, f, code);
        }
      }
      hide Ledger, Sincere;
      NoReason(lib, cfg, log, files[..i], bytes[..i], r, b, uploads, left);
    }
  }

  lemma NoReason(
    lib: Library, cfg: Config, log: Journal, files: seq<Record>, bytes: seq<Bytes>, r: Record, b: Bytes, uploads: nat,
    left: int
  )
    requires Truthful(log, uploads, left, false) && GoodFile(lib, cfg, log, files, r, b, uploads, left)
    requires |bytes| == |files| && Reasoned(lib, cfg, log, files, bytes, r, b)
    requires r.origin.Upload? ==> r.size <= cfg.maxInputFileSize
    requires r.reason !in {Some(ExcludedPath), Some(SecretFileNotAllowed)}
    requires forall code :: !OmissionReason(lib, files, bytes, r, b, code)
    ensures r.reason.None?
  {
    hide GoodContainer, ContainerFault, CountUploads, CountFiles, Judged, ZipReason, OmissionReason, NothingOmitted;
    if r.reason.Some? && r.reason.value.FromZip? {
      NoArchiveReason(lib, cfg, log, files, bytes, r, b, uploads, left, r.reason.value.code);
    }
  }

  lemma NoArchiveReason(
    lib: Library, cfg: Config, log: Journal, files: seq<Record>, bytes: seq<Bytes>, r: Record, b: Bytes, uploads: nat,
    left: int, code: Code
  )
    requires Truthful(log, uploads, left, false) && GoodFile(lib, cfg, log, files, r, b, uploads, left)
    requires |bytes| == |files| && !OmissionReason(lib, files, bytes, r, b, code)
    ensures !ZipReason(lib, cfg, log, files, bytes, r, b, code)
  {
    hide GoodContainer, ContainerFault, CountUploads, CountFiles, Judged, OmissionReason;
    if Seen(log, b, r.detected) && ((r.origin.Upload? && r.detected.ArchiveZip?) || r.detected.Ooxml?) {
      GoodBudget(lib, cfg, b, left);
      forall n: nat | Allowed(b, n) in log
        ensures n > 0 && !ContainerFault(lib, b, LimitsFor(cfg, n), code)
      {
        GoodContainerFaultless(lib, cfg, b, left, n, code);
      }
    }
  }

  lemma GoodBudget(lib: Library, cfg: Config, b: Bytes, left: int)
    requires GoodContainer(lib, cfg, b, left)
    ensures left > 0 && lib.parse(b).Some?
  {
  }

  // ----- The published tree -----

  /** The directory holds the approved files and the manifest, all with the permissions that are configured. */
  lemma PublishedTree(
    lib: Library, cfg: Config, marshal: Marshal, batch: seq<InputFile>, files: seq<Record>, bytes: seq<Bytes>,
    log: Journal, s: Tree
  )
    requires Delivered(lib, cfg, marshal, batch, files, bytes, log, s) && ValidConfig(cfg)
    ensures Permitted(s, cfg.fileMode, cfg.dirMode)
    ensures forall k :: k in s && |k| == 1 ==> k[0] == "approved" || k[0] == "manifest.json"
    ensures ["approved"] in s && s[["approved"]].Dir? && ["manifest.json"] in s && s[["manifest.json"]].File?
  {
    hide Ledger, Agree, Decided, AllTitled, FileBits, DirBits, SummaryOf;
    DeliveredPermitted(lib, cfg, marshal, batch, files, bytes, log, s);
  }

  /** The summary of a delivered result: one upload per input, every discovered file decided once. */
  lemma AccountsBalance(
    lib: Library, cfg: Config, marshal: Marshal, batch: seq<InputFile>, files: seq<Record>, bytes: seq<Bytes>,
    log: Journal, s: Tree
  )
    requires Delivered(lib, cfg, marshal, batch, files, bytes, log, s)
    ensures var summary := SummaryOf(files);
      && summary.uploaded == |batch| && summary.discovered == |files| <= cfg.maxDiscovered
      && summary.approved + summary.rejected == summary.discovered
  {
    SummaryBalances(files);
  }
}
