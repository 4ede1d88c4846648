# A verified model of the attachment gate

The gate takes a batch of e-mail attachments, decides about every file in it and
about every member of the ZIP archives in it, and publishes a directory with the
approved files and a manifest. This project models its core in Dafny and proves
what the gate exists for: nothing is published that the malware daemon has not
cleared, the manifest and the published files agree, every file is decided exactly
once, and a result appears as a whole or not at all, whatever the operating system
does in between, and is on the disk when the gate reports success.

## How it is built

The model follows the program's own layers, bottom up.

- `basics`, `text`, `utf8`, `sorting`, `decimal`: byte order, UTF-8, sorting, numerals.
- `posix_path`, `zip_names`: `path.Clean`, member names, the extra-field walk.
- `path_plan`, `central_directory`, `preflight`: the streaming checks on an archive,
  against specifications that do not mention order.
- `file_system`, `confined`: a file system whose every operation may fail, and what
  steps confined to one directory leave alone.
- `streams`, `bounded_copy`, `extract`, `extract_facts`: streams with arbitrary
  chunking, the bounded copy, extraction and its cleanup, and what a caller may rely on.
- `sealing`, `publish`, `staging`: the staging directory from creation to publication
  or removal.
- `clamd`, `utf16`, `names`, `byte_size`: the INSTREAM protocol, the UTF-16 validator,
  output names, byte sizes.
- `engines`: the daemon and the type detector as the scan meets them, and the journal of
  what they have said.
- `records`, `accounts`, `layout`, `placement`: what a record claims, which records a
  batch leads to, where outputs and work directories go.
- `scanner`, `scan`, `results`: the scanner object, the whole run, and what a reader
  of a published result may conclude.

Objects that the program updates in place are classes (`FileSystem`, `Disk`, `Staging`,
`Scanner`, `Client`, `Context`, `Source`, `Sink`); loops are loops with invariants,
proved against functions and predicates. What the environment decides is left open:
chunk sizes, short writes, stalls, cancellation, faults, the type detector, the daemon's
answers. A file system counts its faults, a writer the times it has broken and a reader
the empty reads in a row, so a contract can say that an error has a cause. The journal of
a run records every verdict, silence and detection, the budget each container was allowed,
and that the system has failed; a rejection or an exit code is tied to an entry about
exactly the bytes in question. A file system also carries an onlooker at the published
path who looks after every change; the flag `intact` says whether what it saw was
acceptable every time. A `Disk` records what syncing has forced out: the contents of files
and the names in directories. A `Meter` counts the bytes of archive members that really
reach a file or a digest.

The libraries the program calls (ZIP parsing, CRC-32, SHA-256, NFC and case folding) are
function parameters in one `Library` value. The only hypothesis about them is
`NfcKeepsSafe`: normalising a safe path component gives a safe one. (That it is short enough
is checked by the program, and follows from that check.)

## Where the program does less than it seems to promise

- A published path is meant to be absent or complete at all times. That holds
  (`Scans.Scan`, `Staging.PublishContext`) except in one case: when the rename has
  succeeded and syncing the parent directory then fails, `Abort` makes the complete tree
  writable again and takes it back piece by piece. `Scans.Scan` states exactly this: the
  onlooker stays content in every run that succeeds or fails before the rename; in a run
  that fails after it, a complete result was there (`t.shown`), and if the cleanup itself
  goes through the onlooker is not content. `Publishing.OpenedUnsealed` is the step at
  which this happens.
- Success means that every byte and every name of the result is on the disk
  (`Publishing.OnDisk`). The modes of files are not: they are changed after the last sync
  of each file.
- `archiveDirectory` is meant to yield a safe component. It does if and only if the
  output name is not one or two dots followed by ".zip", in any case of letters
  (`Names.ArchiveDirectorySafe`); "..zip" and "...zip" become "." and ".."
  (`Names.DotsZipOccurs`). No harm is done, because the number put in front makes every
  such name safe (`Names.NumberedSafe`).
- When cleaning up after a failed extraction fails too, `Extract` still reports the
  original error, so the scan may go on with residue in the staging directory. The check
  of its listing before the rename then refuses to publish.
- The branch of `processArchiveFile` that makes a record a container, the result
  check on `utf16.DecodeRune`, and the internal-error exits for invalid archive limits
  are never taken.

## Model

| member | source | states |
|---|---|---|
| BoundedCopy.CopyAtMost | internal/archive/zip.go:679-714 | for every chunking the destination gets a prefix of the source of at most `limit` bytes; success means the source really ended and was copied in full; a too long source yields the limit error with exactly `limit` as the count, or 0 when the limit itself is unusable; every other error has its cause |
| CentralDirectory.CountCentralHeaders | internal/archive/zip.go:424-447 | the loop equals the recursive header walk: its count, or the bound plus one beyond the bound, or an error at a broken header |
| CentralDirectory.WalkPrinted | internal/archive/zip.go:424-447 | the walk inverts a printer: over k printed headers, wherever they stand, it counts exactly k and finds nothing broken |
| CentralDirectory.CheckEntryCount | internal/archive/zip.go:346-413 | accepts a file if and only if it has no end record in the window or the last one whose comment fits is bounded; each code names its cause in that record: not a plain archive, too many entries declared or walked from one of the two candidate starts, or a damaged directory |
| CentralDirectory.JudgeEndRecord | internal/archive/zip.go:375-413 | an end record passes if and only if its fields and both candidate directory walks stay within the bound; each code has its own cause |
| CentralDirectory.WindowCovers | internal/archive/zip.go:346-372 | the search window contains every end record with any legal comment that reaches the end of the file, so one is always chosen |
| CentralDirectory.PrintedBounded | internal/archive/zip.go:361-413 | over a directory and an end record printed field by field, acceptance means exactly: one disk, no mark or locator of ZIP64, and no more entries than the bound, neither declared, nor printed, nor walked from the recorded offset where that lies before the directory |
| CentralDirectory.OnlyChosen | internal/archive/zip.go:361-372 | when no later record fits, this record alone decides |
| ZipNames.ZipEntryName | internal/archive/zip.go:596-630 | the offset loop equals the recursive walk over the extra fields; a name flagged as UTF-8 is taken as it is |
| ZipNames.WalkRecovers | internal/archive/zip.go:602-625 | well-formed other fields followed by a valid Unicode-path field yield exactly that name, whatever follows |
| ZipNames.WalkFindsNone | internal/archive/zip.go:602-629 | a well-formed list without such a field yields none, so the raw name stays flagged as not UTF-8 |
| ZipNames.WalkParses | internal/archive/zip.go:602-629 | conversely, every input that is not refused is the printed form of such a list of fields |
| ZipNames.SyntaxChecks | internal/archive/zip.go:636-659 | the program's checks, one after another, hold exactly for the relative names all of whose components are safe |
| ZipNames.SafeName | internal/archive/zip.go:632-665 | accepts exactly the UTF-8 names that are safe relative paths within the limits, and returns their components; each of the two errors has its cause |
| ZipNames.DriveNamed | internal/archive/zip.go:667-669 | the drive check holds exactly for a letter followed by a colon |
| Utf8.LengthKept | internal/archive/zip.go:657-660 | the byte length on which the limits are stated is the length of the UTF-8 encoding |
| Utf8.OrderKept | internal/archive/zip.go:215-222 | byte order of the encodings is the order of code points, so the order the model sorts by is the one the program sorts by |
| PosixPath.CleanFixpoint | internal/archive/zip.go:645-650 | a relative name equals its `path.Clean` if and only if it is "." or some ".." followed by ordinary components |
| PosixPath.Containment | internal/archive/zip.go:224-229 | joining an accepted name to a destination resolves to the destination extended by exactly its components |
| PosixPath.AncestorsFirst | internal/archive/zip.go:215-222 | in the order of `sort.Strings` a directory comes before everything inside it |
| PathPlan.AddClaim | internal/archive/zip.go:513-543 | one turn over the three maps accepts a prefix if and only if it is consistent with all earlier ones under normalisation and case folding and repeats no full path; the maps then describe exactly the claims made |
| PathPlan.AddMember | internal/archive/zip.go:513-543 | the inner loop accepts a member if and only if the extended list meets the order-free specification |
| PathPlan.OrderIrrelevant | internal/archive/zip.go:513-543 | acceptance and the resulting node map do not depend on the order of the entries |
| PathPlan.PlanIsTree | internal/archive/zip.go:513-543 | every proper prefix of a planned path is a planned directory, so files are leaves |
| Preflights.RatioIsProduct | internal/archive/zip.go:671-677 | quotient and remainder decide the comparison with the product, which is never formed |
| Preflights.CheckLimits | internal/archive/zip.go:449-456 | passes exactly the limits that are all positive |
| Preflights.EncryptedBits | internal/archive/zip.go:486-487 | a member counts as encrypted exactly when one of the three bits for it is set |
| Preflights.AcceptedName | internal/archive/zip.go:477-512 | an accepted member is named by its raw bytes if they are flagged as UTF-8, and otherwise by the first valid Unicode-path field among well-formed fields |
| Preflights.UnknownNameRefused | internal/archive/zip.go:477-512 | a name that is not flagged as UTF-8 and has no such field is never accepted |
| Preflights.TrailingSlash | internal/archive/zip.go:501-512 | a slash at the end of a name belongs to the path of a regular file and to no other |
| Preflights.NoFileEndsInSlash | internal/archive/zip.go:501-512 | so a regular file whose name ends in a slash is never accepted |
| Preflights.ValidateDirectory | internal/archive/zip.go:560-594 | passes exactly the directories that really are empty, unless canceled or stalled |
| Preflights.InspectMember | internal/archive/zip.go:481-517 | the checks on one member decide everything of its acceptance but the sizes; the entry omits it exactly if it is a symbolic link or a special file, under the code for that kind, and each code names the defect the member has |
| Preflights.Preflight | internal/archive/zip.go:469-558 | accepts a member list if and only if the order-free specification does, unless canceled or stalled, with exactly its entries, node map and declared total; each code states what is wrong: an encrypted member, a clash of paths, an unsafe name, a limit exceeded, a directory with data |
| Preflights.PreflightIgnoresOrder | internal/archive/zip.go:469-558 | acceptance, declared total and node map are the same for every rearrangement of the members |
| Preflights.AcceptedFaultless | internal/archive/zip.go:469-594 | members that meet the specification have none of the defects a code can name, unless a directory stalls |
| Preflights.OpenReader | internal/archive/zip.go:335-344 | opens exactly the files that are readable, bounded and parsed, unless the operating system fails |
| Preflights.TallyEntries | internal/archive/zip.go:120-130 | counts the files among the entries and lists the members omitted by policy with their announced sizes |
| Preflights.PreflightFile | internal/archive/zip.go:104-136 | the figures are those of the accepted members; no failure is an I/O error, and each code names a defect of the file, or an unreadable file for the code that says invalid |
| Extraction.AcceptedIsExecutable | internal/archive/zip.go:215-261 | an accepted plan can be carried out: distinct names, parents planned as directories, legal components |
| Extraction.SortedIsCreationOrder | internal/archive/zip.go:215-222 | the sorted directories are exactly the planned ones, each after its parent |
| Extraction.MakeDirectories | internal/archive/zip.go:224-235 | creates exactly the planned directories, failing only when canceled or by a fault |
| Extraction.NextMember | internal/archive/zip.go:239-261 | the next member to be written always finds its directory there and its name free |
| Extraction.CopyBody | internal/archive/zip.go:263-285 | opening and copying a member: on success the whole body; on failure a prefix, charged exactly as it is, and as the whole allowance if and only if the code is the limit code, which needs a body that is, or announces itself, too long |
| Extraction.ConsumeRejected | internal/archive/zip.go:306-331 | an omitted member is read to its end within its allowance, its checksum compared, and reported with true size and digest; on failure the charge is what was read, and the whole allowance exactly for the limit code |
| Extraction.WriteMember | internal/archive/zip.go:258-299 | on success the file holds exactly the member, whose checksum matches; the charge is exactly the bytes that reached the file, or the whole allowance exactly for the limit code |
| Extraction.ExtractEntry | internal/archive/zip.go:239-299 | one member: the budget is never exceeded; the charge is exactly what was delivered, except that the limit code charges the whole allowance; that code comes only from a body longer than its allowance or a broken stream of a member that announces at least as much; every other code names its cause too |
| Extraction.CleanUp | internal/archive/zip.go:202-210 | removing the destination restores the file system as it was, unless the operating system fails |
| Extraction.ExtractInto | internal/archive/zip.go:202-304 | extraction into the new directory, or the file system as it was before; a failed extraction is charged exactly what it delivered, or, under the limit code, what the members before the first one too long deliver and that one's allowance |
| Extraction.Extract | internal/archive/zip.go:175-304 | success: the destination holds exactly the accepted members with matching checksums, sorted names and exact figures; failure: nothing is left behind unless a fault intervened, and the code names a defect of the first member that has one; the charge is exactly the bytes delivered unless the code is the limit code, and then an allowance a member really exceeds or announces; it never exceeds the limit; I/O errors come only from faults or a destination in use |
| Extraction.ExtractableFaultless | internal/archive/zip.go:239-331 | members that can be extracted within the limits have none of the defects a code can name, unless one stalls |
| ExtractionFacts.ExtractionFaithful | internal/archive/zip.go:175-331 | the returned names are strictly sorted, safe and disjoint; each file is a regular member under the name its source normalises to with the announced checksum, and every regular member is there; every rejection is about a symbolic link or a special file under the code for its kind, and each of those has one; files and rejections together number the non-directories |
| ExtractionFacts.ExtractionPrivate | internal/archive/zip.go:224-261 | everything extracted is readable and writable by its owner and closed to everybody else |
| ExtractionFacts.OmissionReported | internal/archive/zip.go:306-331 | every member that is a symbolic link or special has a rejection of its own with its code, size and digest |
| ExtractionFacts.FilesAccountedFor | internal/archive/zip.go:120-130 | every member that is not a directory is either written or reported as rejected |
| ExtractionFacts.FoldedPlanExecutable | internal/archive/zip.go:215-261 | on a file system that identifies names up to case folding, every step of the plan still finds its parent present and its target absent |
| Sealing.InsideOutOrder | internal/output/staging.go:169 | sorted by falling length, a directory comes after everything inside it |
| Sealing.PrefixSealed | internal/output/staging.go:169-185 | wherever sealing stops, no sealed directory contains an unsealed one |
| Sealing.SealDirs | internal/output/staging.go:170-185 | seals a prefix of the sorted directories, all of them on success, and nothing else |
| Sealing.AllLinked | internal/output/staging.go:170-185 | once every directory of a tree has been synced, every name in the tree is on the disk |
| Sealing.SealTree | internal/output/staging.go:145-185 | on success every file and directory has exactly the mode asked for, the contents are unchanged, and every name in the tree has been forced out to the disk |
| Publishing.RenameTree | internal/output/staging.go:189-192 | the prepared tree appears under the final name all at once, or nothing changes |
| FileSystems.SavedMoved | internal/output/staging.go:189-192 | what has been forced out below a directory stays so when the directory is renamed; only its own name is not |
| Publishing.WholeSaved | internal/output/staging.go:74-128 | if the approved files and the manifest have been forced out, so has every file of a complete tree |
| Publishing.PublishTree | internal/output/staging.go:134-192 | an onlooker who accepts nothing at the final name but the sealed tree, contents included, is content at every moment; once renamed exactly that tree is there, with every name in it, and every file whose contents had been, forced out |
| Publishing.OpenedUnsealed | internal/output/staging.go:50-60 | a published tree that is being taken back has a writable root |
| Publishing.OpenUp | internal/output/staging.go:53-58 | every directory of the tree is made writable again, unless the operating system fails; nothing else changes |
| Publishing.Discard | internal/output/staging.go:50-60 | removes the whole tree, read-only directories included, unless the operating system fails; then what is left is part of what was there, with its contents; nothing outside changes, and at the published path the onlooker notices |
| StagingArea.ApprovedPathExact | internal/output/staging.go:204-209 | accepts exactly the names without backslash whose components are all ordinary |
| StagingArea.SafePathsApproved | internal/output/staging.go:204-209 | accepts every path of safe components, as itself |
| StagingArea.NewStaging | internal/output/staging.go:23-48 | a fresh, empty area beside the result; failure has a cause, and leaves nothing unless removing it failed too |
| StagingArea.TempPathFits | internal/output/staging.go:35 | the temporary name lies beside the final one, differs from it and is legal whenever the final name leaves room |
| StagingArea.Staging.Mkdir | internal/output/staging.go:62-68 | creates the directory and what is missing above it, nothing else; refuses only paths that are not approved |
| StagingArea.Staging.CopyContext | internal/output/staging.go:74-100 | adds one file with exactly the source's bytes, forced out to the disk, and returns their digest and size; a failure leaves at most a prefix, and has its cause |
| StagingArea.FileBitsKept | internal/output/staging.go:160-167 | masking a file mode without execute bits keeps its nine permission bits exactly and sets no special bit |
| StagingArea.DirBitsKept | internal/output/staging.go:173-183 | masking a directory mode keeps its nine permission bits exactly and sets no special bit |
| StagingArea.WriteVia | internal/output/staging.go:114-128 | writes a file, forced out, by way of a temporary one that is gone afterwards, and touches only these two names |
| StagingArea.Staging.WriteManifest | internal/output/staging.go:114-128 | adds the manifest, forced out, and leaves the approved files alone |
| StagingArea.Staging.PublishContext | internal/output/staging.go:134-202 | the result appears sealed and complete under its final name or not at all, every file with exactly the permission bits of the file mode (which has no execute bits) and every directory with exactly those of the directory mode; a success means that every name in it and its own are forced out, and every file that was before; an error after the rename comes only from a fault; up to then directories are sealed from the inside out |
| StagingArea.Staging.Abort | internal/output/staging.go:50-60 | does nothing after a success; otherwise removes what was staged or renamed, and nothing else |
| Names.TrimUtf8 | internal/app/names.go:41-50 | the longest prefix of whole code points that fits |
| Names.OutputNameSafe | internal/app/names.go:13-39 | for every input name the output name is one safe component within the length, or "attachment" |
| Names.ExtensionKept | internal/app/names.go:29-38 | a long name with a short extension keeps it, gives a prefix for the rest and wastes at most three bytes |
| Names.PlainNameKept | internal/app/names.go:13-39 | a name that is already safe, short and normalised is kept |
| Names.DirectoriesDropped | internal/app/names.go:14-16 | a plain name behind directories, with either slash, and before trailing slashes is what is kept |
| Names.BlanksDropped | internal/app/names.go:14-28 | blanks around a plain name are dropped |
| Names.LongExtensionDropped | internal/app/names.go:29-38 | a long name with a long extension loses the extension, and then ends at a code point |
| Names.ArchiveDirectoryKept | internal/app/names.go:52-62 | the directory name of an archive is not empty, short, and free of unsafe characters |
| Names.ZipDirectory | internal/app/names.go:52-62 | a plain name ending in ".zip", in any case of letters, yields its stem, or "archive" when the stem is empty |
| Names.OtherDirectory | internal/app/names.go:52-62 | any other plain name is its own directory name |
| Names.ArchiveDirectorySafe | internal/app/names.go:52-62 | it is a safe component if and only if the output name is not dots followed by ".zip" |
| Names.DotsZipOccurs | internal/app/names.go:52-62 | "..zip" and "...zip" become "." and ".." |
| Names.NumberedSafe | internal/app/scan.go:818-821 | with its number in front every such name is a safe component |
| Names.NumberedLength | internal/app/scan.go:818-821 | the number costs at most six bytes |
| Names.NumberedInjective | internal/app/scan.go:818-821 | numbered names are equal only for the same number and the same name |
| Names.NumberedParts | internal/app/scan.go:818-821 | a numbered name is a numeral of two digits or more whose value is the number plus one, a dash, and the name |
| Names.NumberedOrder | internal/app/scan.go:818-821 | the numeral is padded so that names sort as their numbers do |
| Names.RecordIdInjective | internal/app/scan.go:611-615 | different records have different identifiers |
| Decimals.ValuePad | internal/app/scan.go:818-821 | zero-padded numerals denote the number |
| Clamd.WriteAll | internal/malware/clamd.go:196-207 | everything is written, whatever the short writes; it fails if and only if a write reports an error or takes nothing |
| Clamd.SendAll | internal/malware/clamd.go:87-118 | non-empty frames of at most 32 KiB that together are the source, for every chunking and every short write; it gives up only when canceled, after a hundred empty reads in a row, or when reading or writing breaks |
| Clamd.Send | internal/malware/clamd.go:83-118 | success emits a complete request for exactly the source; failure a prefix of one, and the error names what has happened |
| Clamd.RoundTrip | internal/malware/clamd.go:83-118 | a receiver that follows the protocol gets exactly the bytes that were sent |
| Clamd.CommandHeard | internal/malware/clamd.go:83-86 | a receiver that finds the command reads the frames behind it |
| Clamd.NetworkOrder | internal/malware/clamd.go:96-100 | larger lengths are larger as bytes too: the most significant byte comes first |
| Clamd.IncompleteNotReceived | internal/malware/clamd.go:83-118 | no proper prefix of a request is received as anything |
| Clamd.ReadNul | internal/malware/clamd.go:180-194 | exactly the bytes before the first NUL, if it comes within the limit; it fails only if it does not, or after a hundred empty reads in a row |
| Clamd.ParseSpoken | internal/malware/clamd.go:163-178 | the classifier inverts the printed form of a verdict: it answers with a verdict if and only if the response is that verdict spoken |
| Clamd.ScanStream | internal/malware/clamd.go:83-125 | a verdict is about exactly the bytes of the source, all of which the daemon received; without one, what broke, dried up or was misspelt is named |
| Engines.Client.Scan | internal/malware/clamd.go:73-125 | each scan adds exactly one entry to the journal: the exchange about exactly these bytes whose answer is the verdict, or why there was none |
| Utf16.DecodeEncode | internal/detect/detector.go:394-434 | decoding inverts encoding, in either byte order |
| Utf16.EncodeDecode | internal/detect/detector.go:394-434 | encoding inverts decoding |
| Utf16.PairInverse | internal/detect/detector.go:414-420 | surrogate pairs and the scalars above 0xFFFF correspond, and never to the replacement character |
| Utf16.ByteOrder | internal/detect/detector.go:366-369 | the bytes of the byte order mark and of every ASCII character, in either order |
| Utf16.TextIsEncoding | internal/detect/detector.go:394-438 | a stream is accepted text if and only if it encodes some scalars of which at most one in a hundred is NUL |
| Utf16.TakeUnit | internal/detect/detector.go:413-432 | one turn of the automaton agrees with the decoder, a pending high surrogate included |
| Utf16.ValidUtf16 | internal/detect/detector.go:394-438 | the automaton is exact: yes for text, no for anything else, an error only from the stream |
| ByteSizes.GuardIsProduct | internal/config/config.go:63-67 | the overflow guard refuses exactly the products beyond the largest int64 |
| ByteSizes.MultiplierIsPower | internal/config/config.go:40-61 | each unit is accepted in any case of letters and denotes its power of 1000 or 1024; nothing else is a unit |
| ByteSizes.SizeRead | internal/config/config.go:30-68 | blanks, digits, a unit and blanks are read as the product of numeral and unit, if that fits an int64 |
| ByteSizes.ParseByteSize | internal/config/config.go:30-68 | the loop computes the mathematical value or refuses |
| ByteSizes.PrintThenParse | internal/config/config.go:82-92 | printing and parsing again gives the same size, for every non-negative int64 |
| Accounts.UploadCounted | internal/app/scan.go:125-152 | the records of an archive's members do not count as uploads |
| Accounts.DecidedSnoc | internal/app/scan.go:125-152 | a further upload adds one block: its own record, and one for each file of the archive if it was expanded |
| Accounts.RecordsCounted | internal/app/scan.go:125-152 | there are as many records as uploads and files in expanded archives together |
| Placement.FreshTop | internal/app/scan.go:252-298 | the numbered name of the next upload collides with no output so far |
| Placement.FreshMember | internal/app/scan.go:471-482 | nor does the path of the next member of an archive |
| Placement.NumberedPathOrder | internal/app/scan.go:818-821 | everything below the directory of one upload sorts before everything of a later one |
| Placement.TitledMore | internal/app/scan.go:252-298 | a block with the right number and name in front keeps every upload's published name right |
| Placement.OutputPathAccepted | internal/app/scan.go:471-482 | the joined output path of a member is approved as its directory followed by its components |
| Placement.ItemsExhaustive | internal/app/scan.go:299-328 | written files and rejections together are the files of the archive, each exactly once, with their true contents |
| Placement.ExtractedHaul | internal/app/scan.go:286-304 | what the scan relies on when it goes through an archive follows from a successful extraction |
| Layout.NamesApart | internal/app/scan.go:286-291 | snapshots, work directories, the manifest and the approved files never share a name |
| Layout.EntryFree | internal/app/scan.go:286-291 | in a tidy staging directory every further entry can be created |
| Records.BudgetGrows | internal/app/scan.go:378-384 | what is extracted within what is left of the budget is within the whole |
| Records.FreshIsFree | internal/app/scan.go:252-263 | if records and tree agree, a path that collides with no output is free |
| Records.AgreeOutput | internal/app/scan.go:252-298 | entering an approval together with its output keeps records and tree in agreement |
| Records.LedgerSnoc | internal/app/scan.go:655-671 | entering a sincere record keeps the ledger |
| Scanning.Scanner.NewFile | internal/app/scan.go:611-631 | identifiers run in order; a record starts out as an omitted rejection |
| Scanning.Scanner.Reject | internal/app/scan.go:655-662 | exactly one record is entered, with a reason of the schema that holds: size, path list, policy, or an entry of the journal about exactly these bytes |
| Scanning.Scanner.Approve | internal/app/scan.go:664-671 | exactly one record is entered, and records and tree agree again |
| Scanning.Scanner.Detect | internal/app/scan.go:495-499 | what the detector says of these bytes is in the journal; an archive error of it is never an I/O error or one about limits |
| Scanning.Scanner.DetectorFailure | internal/app/scan.go:501-536 | one rejection for what the detector has reported of these bytes, or the end of the scan because of it |
| Scanning.Scanner.AskDaemon | internal/app/scan.go:538-579 | no objection means cleared in the journal; an objection is the daemon's answer about exactly these bytes; a timeout is one of this scan and not a lost connection; an answer about a size limit rejects this file and does not stop the batch; the end of the scan has its event in the journal |
| Scanning.Scanner.ScanMalware | internal/app/scan.go:538-579 | the same about exactly the bytes of the file, which nothing changes meanwhile |
| Scanning.Scanner.ArchiveFailure | internal/app/scan.go:581-596 | one rejection whose code names a defect of the container within the budget that was left for it, or the end of the scan for a stated cause |
| Scanning.Scanner.ExtractionLimits | internal/app/scan.go:378-384 | there are limits if and only if budget is left, valid ones and exactly what is left |
| Scanning.Scanner.PreflightContainer | internal/app/scan.go:358-376 | passing means parsed, within the limits and within the discovery limit; otherwise one rejection for a defect, an exhausted budget or too many files |
| Scanning.Scanner.Rehearse | internal/app/scan.go:335-348 | a trial extraction that succeeds proves the container clean, and its work directory is gone afterwards |
| Scanning.Scanner.ValidateOoxml | internal/app/scan.go:335-356 | passing means completely extracted within the budget, every checksum matching, nothing omitted |
| Scanning.Scanner.Unpack | internal/app/scan.go:286-289 | an extraction, failed or not, is charged to the budget of the batch: exactly the bytes delivered, or an allowance that a member really exceeds or announces to |
| Scanning.Scanner.ApplyExtensionPolicy | internal/app/scan.go:598-609 | a mismatch, and only that, adds its warning; it rejects if and only if the policy refuses mismatches |
| Scanning.Scanner.AllowArchive | internal/app/scan.go:267-275 | an archive goes on only if archives are enabled and ZIP is allowed and no mismatch is refused, with exactly the warnings of its type |
| Scanning.Scanner.ScreenType | internal/app/scan.go:598-609 | rejects if and only if the policy refuses executables and it is one, or refuses mismatches and there is one, and the record says which; a record that passes carries exactly the warnings of the detection |
| Scanning.Scanner.ScreenFile | internal/app/scan.go:224-251 | a file that passes has everything an approval vouches for |
| Scanning.Scanner.CopyApproved | internal/app/scan.go:252-263 | the approved file is written with exactly the cleared bytes, and entered |
| Scanning.Scanner.ExpandOut | internal/app/scan.go:294-298 | the directory of an archive is created, and entered |
| Scanning.Scanner.RejectEntry | internal/app/scan.go:486-493 | an omitted member gets exactly one record, with true size and digest |
| Scanning.Scanner.ProcessMember | internal/app/scan.go:413-484 | exactly one record about exactly this member; if approved, at its own path below the archive's directory; if rejected, for a reason that holds of a regular member |
| Scanning.Scanner.ProcessMembers | internal/app/scan.go:305-328 | one record for each item of the archive, in order and about that item |
| Scanning.Scanner.ProcessArchive | internal/app/scan.go:267-333 | one rejection, or a record of the archive followed by exactly one for each of its files; the work directory is gone |
| Scanning.Scanner.ProcessUpload | internal/app/scan.go:201-265 | one upload adds exactly one block of records, about that upload; if approved, its output is its own number, a dash and the name that the naming rules give its own name; further outputs lie below that |
| Scanning.Scanner.Snapshot | internal/app/scan.go:823-860 | a private copy with the size and digest the batch was loaded with, or an error for a stated cause |
| Scanning.Scanner.HashFile | internal/app/scan.go:862-874 | digest and size of exactly the bytes of the file |
| Scanning.Scanner.RemoveSnapshot | internal/app/scan.go:144-150 | the snapshot goes, whatever has happened before, unless the operating system fails |
| Scanning.Scanner.ScanUpload | internal/app/scan.go:125-151 | one turn of the loop: a block about this very input, or the end of the scan for a stated cause |
| Scanning.Scanner.ScanUploads | internal/app/scan.go:124-155 | the whole loop: one block for each input in order, all invariants kept, the world around untouched; budget and delivered bytes within the limit |
| Scans.SummaryBalances | internal/app/scan.go:791-812 | approved and rejected together are all records |
| Scans.OutcomeMeans | internal/app/scan.go:791-812 | the outcome says whether no record, or every record, is an approval |
| Scans.Summarize | internal/app/scan.go:791-812 | the counting loop yields the summary of the records |
| Scans.WriteAndPublish | internal/app/scan.go:178-199 | manifest and publication as one step, under the eyes of an onlooker who awaits exactly this result |
| Scans.Run | internal/app/scan.go:124-199 | a renamed result is a delivered one; whatever is staged as approved was cleared; every exit code has a cause that happened in this run, and the internal error never occurs |
| Scans.CleanUpRun | internal/app/scan.go:105-109 | after a failed run the file system is as it was before, unless the cleanup meets a fault; then one directory is left, and its approved files hold only what was cleared |
| Scans.OnlookerAwaits | internal/app/scan.go:155-199 | what has been staged is a result of this batch |
| Scans.DeliveredPermitted | internal/output/staging.go:160-183 | in a delivered tree each file has exactly the configured file permissions and each directory exactly the configured directory permissions |
| Scans.Scan | internal/app/scan.go:73-199 | success: a complete result for exactly this batch, with exactly the configured permissions, every byte and name of it forced out to the disk; failure: nothing left, unless the cleanup meets a fault, and then one directory with nothing uncleared in it; the onlooker sees nothing or a complete result with one stated exception; bytes delivered stay within the budget; every exit code has a cause that happened in this run |
| Results.UploadsDecidedOnce | internal/app/scan.go:125-152 | each input has exactly one upload record, in order, with its attachment, name, size and digest |
| Results.MembersDecidedOnce | internal/app/scan.go:305-328 | the children of an expanded archive are the records that follow it, in one-to-one correspondence with its files |
| Results.CopiesCorrespond | internal/app/scan.go:252-263 | the regular files published and the copied records correspond one to one, each file with the size and digest its record states |
| Results.OutputsApart | internal/app/scan.go:252-298 | output paths are pairwise distinct and no copied file lies above another output |
| Results.OnlyCleared | internal/app/scan.go:538-579 | every published file was cleared by the daemon in this run, byte for byte |
| Results.ContainersChecked | internal/app/scan.go:267-356 | approved archives and documents were completely extracted within the limits, documents with nothing omitted |
| Results.GoodContainerFaultless | internal/app/scan.go:267-376 | a container that can be read and unpacked within some budget has no defect for which it is refused within a larger one |
| Results.GoodUploadApproved | internal/app/scan.go:125-298 | the converse of the safety results: in a run without faults an upload of legal size and name, of which detector and daemon have said nothing bad and which is a good container if it is one, is approved |
| Results.GoodMemberApproved | internal/app/scan.go:413-484 | the same for members: in a run without faults a regular member of an expanded archive with an admitted path, of which detector and daemon have said nothing bad and which is a good container if it is a document, is approved, at its own path below the archive's output |
| Results.LinksAreLinks | internal/archive/zip.go:488-494 | a member recorded as a symbolic link or special file, when the detector has reported no such error of it, is one of that kind |
| Results.PublishedUnderItsName | internal/app/scan.go:201-265 | in a delivered result the output of the k-th input, if approved, is one component: a numeral of value k + 1, a dash, and its own name when that is plain, or the stem of a plain ".zip" name when it was expanded; it is there in the published tree |
| Results.WithinConfiguredLimits | internal/app/scan.go:401-411 | every member of an approved container is within each configured limit: entries, file size, announced and true total, ratio, depth and length of the path |
| Results.PublishedTree | internal/app/scan.go:178-199 | at the top of the result are the directory of approved files and the manifest and nothing else, with the configured permissions |
| Results.OutputsListedInOrder | internal/app/scan.go:125-152 | outputs are listed in strictly ascending order of their paths |
| Results.ParentBefore | schemas/manifest-v1.schema.json:96-160 | the parent of a member is an earlier approved, expanded upload with the same attachment, and contains its output |
| Results.RecordsInOrder | schemas/manifest-v1.schema.json:96-160 | identifiers are "f_" and the number of the record in at least four digits, and differ; every record meets the schema's conditions |
| Results.AccountsBalance | internal/app/scan.go:791-812 | uploads equal inputs, decisions equal discoveries, discoveries stay within the limit |

## Left out

- The command line, `doctor`, configuration files, dependency and version checks, verbose output.
- Loading the batch: `Scans.Scan` starts from inputs whose sizes and digests match what was loaded and that lie outside the directory of the result.
- Whether the type detector is right: libmagic, image decoding, UTF-8 text validation and the type tables. Its result is arbitrary, and so are the three policy tables built on it (exclusion lists, warnings, extensions).
- Only allowed types being approved: the program itself merely warns about other types.
- The text of error messages, the entry and detail fields of a reason, and which of several errors is reported first.
- Scanning.Scanner.Detect: leaves open which error the detector returns, because the detector is a foreign program.
- Engines.Client.Scan: dialling, deadlines and the bytes that a buffered reader takes in beyond the answer are not modelled; cancellation is a flag that stays set.
- Bytes that a decompressor produces beyond the limit and the copy then drops (one at most for each failed member), and those of directory members, are not on the meter.
- Copying whole files in the staging directory and hashing them are single steps that may stop after any prefix; only the bounded copy, the framing and the text validator are modelled chunk by chunk.
- What has been forced out to the disk is recorded under its path; nothing the gate writes is written twice under one path, but the model does not enforce that.
- The JSON encoding of the manifest is a function parameter; scan identifiers, times and engine versions are not part of it.
- `ApprovedBytes` equals the sizes of approved records, containers included, and is not claimed to be the size of what is published.
- Symbolic links in the file system itself (as members of archives they are modelled), search permission on directories, path length limits of the operating system, and other processes that change the file system during a run.
- The internals of the ZIP library, DEFLATE, CRC-32, SHA-256, NFC and case folding; digests are not assumed to be injective. Normalisation and folding act on each component by itself.
- Strings are sequences of Unicode code points; file names that are not valid UTF-8 occur only as the raw bytes of ZIP entries.
- Integers are unbounded: the sizes that occur are bounded by validated limits, and the two guards against overflow (byte sizes, compression ratio) are proved to compare with the exact product.
- A base name that contains an asterisk, which `os.MkdirTemp` would treat as a placeholder.
- The order among equally long directories in sealing and among removals below a directory is not fixed, as the program does not rely on it.
