/**
 Names of ZIP members: the members themselves, the extra-field walk that recovers
 a Unicode name, and the check that a name is safe to create
 (internal/archive/zip.go).
 */
module ZipNames {
  import opened Basics
  import opened Text
  import opened PosixPath
  import opened Streams
  import opened BoundedCopy

  type Digest = string

  /**
   The libraries the gate calls. `nfc` and `fold` act on one path component:
   normalisation, and normalised case folding; neither crosses a slash.
   */
  datatype Library = Library(
    decode: Bytes -> Option<string>,
    nfc: string -> string,
    fold: string -> string,
    crc: Bytes -> nat,
    sha: Bytes -> Digest,
    parse: Bytes -> Option<seq<Member>>
  )

  datatype EntryKind = RegularEntry | DirectoryEntry | SymlinkEntry | SpecialEntry

  /** A `zip.File`, with everything reading it can yield. */
  datatype Member = Member(
    name: Bytes, nonUtf8: bool, extra: Bytes,
    flags: bv16, compression: nat, kind: EntryKind,
    crc: nat, usize: nat, csize: nat,
    opens: Option<StreamError>, body: Body, closes: Option<StreamError>,
    rawOpens: Option<StreamError>, inflated: Body, inflateCloses: Option<StreamError>, trailing: bool
  )

  datatype Limits = Limits(
    maxEntries: int, maxDeclaredBytes: int, maxFileBytes: int, maxTotalBytes: int,
    maxRatio: nat, maxPathDepth: int, maxPathBytes: int
  )

  // ----- The extra-field walk -----

  const UNICODE_PATH := 0x7075

  /** One extra field: a tag and its data. Section 4.5.1 of the ZIP application note. */
  datatype Field = Field(id: nat, data: Bytes)

  ghost predicate FieldFits(f: Field) {
    f.id < 0x1_0000 && |f.data| < 0x1_0000
  }

  function EncodeField(f: Field): Bytes
    requires FieldFits(f)
  {
    PutLe16(f.id) + PutLe16(|f.data|) + f.data
  }

  /** Fields that fit and carry no Unicode path. */
  ghost predicate Ordinary(fields: seq<Field>) {
    forall i :: 0 <= i < |fields| ==> FieldFits(fields[i]) && fields[i].id != UNICODE_PATH
  }

  ghost function EncodeFields(fields: seq<Field>): Bytes
    requires Ordinary(fields)
  {
    if fields == [] then [] else EncodeField(fields[0]) + EncodeFields(fields[1..])
  }

  /** Version 1, the checksum of the raw name, a nonempty UTF-8 name. Section 4.6.9. */
  predicate ValidUnicodePath(lib: Library, raw: Bytes, data: Bytes) {
    && |data| >= 5 && data[0] == 1
    && Le32(data[1..5]) == lib.crc(raw)
    && data[5..] != [] && lib.decode(data[5..]).Some?
  }

  /** The outcome of the walk: a recovered name, no Unicode field at all, or an error. */
  datatype Walked = Recovered(name: Bytes) | NoUnicodePath | Malformed

  function Walk(lib: Library, raw: Bytes, extra: Bytes): Walked
    decreases |extra|
  {
    if |extra| < 4 then (if extra == [] then NoUnicodePath else Malformed)
    else
      var size := Le16(extra[2..4]);
      if size > |extra| - 4 then Malformed
      else if Le16(extra[..2]) != UNICODE_PATH then Walk(lib, raw, extra[4 + size..])
      else
        var data := extra[4..4 + size];
        if ValidUnicodePath(lib, raw, data) then Recovered(data[5..]) else Malformed
  }

  lemma WalkField(lib: Library, raw: Bytes, f: Field, rest: Bytes)
    requires FieldFits(f)
    ensures f.id != UNICODE_PATH ==> Walk(lib, raw, EncodeField(f) + rest) == Walk(lib, raw, rest)
    ensures f.id == UNICODE_PATH ==> Walk(lib, raw, EncodeField(f) + rest) ==
                                     if ValidUnicodePath(lib, raw, f.data) then Recovered(f.data[5..]) else Malformed
  {
    var extra := EncodeField(f) + rest;
    assert extra[..2] == PutLe16(f.id);
    assert extra[2..4] == PutLe16(|f.data|);
    assert extra[4..4 + |f.data|] == f.data;
    assert extra[4 + |f.data|..] == rest;
  }

  lemma {:induction false} WalkSkips(lib: Library, raw: Bytes, fields: seq<Field>, rest: Bytes)
    requires Ordinary(fields)
    ensures Walk(lib, raw, EncodeFields(fields) + rest) == Walk(lib, raw, rest)
  {
    if fields == [] {
      assert EncodeFields(fields) + rest == rest;
    } else {
      WalkSkips(lib, raw, fields[1..], rest);
      WalkField(lib, raw, fields[0], EncodeFields(fields[1..]) + rest);
      assert EncodeFields(fields) + rest == EncodeField(fields[0]) + (EncodeFields(fields[1..]) + rest);
    }
  }

  /** Any list of ordinary fields before a valid Unicode path yields exactly its name. */
  lemma WalkRecovers(lib: Library, raw: Bytes, fields: seq<Field>, data: Bytes, rest: Bytes)
    requires Ordinary(fields) && |data| < 0x1_0000 && ValidUnicodePath(lib, raw, data)
    ensures Walk(lib, raw, EncodeFields(fields) + EncodeField(Field(UNICODE_PATH, data)) + rest) == Recovered(data[5..])
  {
    var f := Field(UNICODE_PATH, data);
    WalkSkips(lib, raw, fields, EncodeField(f) + rest);
    WalkField(lib, raw, f, rest);
    assert EncodeFields(fields) + EncodeField(f) + rest == EncodeFields(fields) + (EncodeField(f) + rest);
  }

  /** A well-formed list without one leaves the name as it was. */
  lemma WalkFindsNone(lib: Library, raw: Bytes, fields: seq<Field>)
    requires Ordinary(fields)
    ensures Walk(lib, raw, EncodeFields(fields)) == NoUnicodePath
  {
    WalkSkips(lib, raw, fields, []);
    assert EncodeFields(fields) + [] == EncodeFields(fields);
  }

  /** Conversely, whatever the walk accepts is the encoding of such a list. */
  lemma {:induction false} WalkParses(
    lib: Library, raw: Bytes, extra: Bytes
  ) returns (fields: seq<Field>, data: Bytes, rest: Bytes)
    requires Walk(lib, raw, extra) != Malformed
    ensures Ordinary(fields)
    ensures Walk(lib, raw, extra).NoUnicodePath? ==> extra == EncodeFields(fields)
    ensures Walk(lib, raw, extra).Recovered? ==>
              && |data| < 0x1_0000 && ValidUnicodePath(lib, raw, data)
              && Walk(lib, raw, extra).name == data[5..]
              && extra == EncodeFields(fields) + EncodeField(Field(UNICODE_PATH, data)) + rest
    decreases |extra|
  {
    fields, data, rest := [], [], [];
    if |extra| >= 4 {
      var first := Field(Le16(extra[..2]), extra[4..4 + Le16(extra[2..4])]);
      EncodeParsed(extra, first);
      var tail := extra[4 + |first.data|..];
      if first.id == UNICODE_PATH {
        data, rest := first.data, tail;
        assert EncodeFields(fields) + EncodeField(first) == EncodeField(first);
      } else {
        fields, data, rest := WalkParses(lib, raw, tail);
        ConsFields(first, fields);
        fields := [first] + fields;
      }
    }
  }

  lemma ConsFields(first: Field, more: seq<Field>)
    requires FieldFits(first) && first.id != UNICODE_PATH && Ordinary(more)
    ensures Ordinary([first] + more)
    ensures EncodeFields([first] + more) == EncodeField(first) + EncodeFields(more)
    ensures forall last: Bytes, rest: Bytes {:trigger EncodeFields(more) + last + rest} ::
      EncodeField(first) + (EncodeFields(more) + last + rest) == EncodeField(first) + EncodeFields(more) + last + rest
  {
    assert ([first] + more)[1..] == more;
  }

  lemma EncodeParsed(extra: Bytes, f: Field)
    requires |extra| >= 4 && Le16(extra[2..4]) <= |extra| - 4
    requires f == Field(Le16(extra[..2]), extra[4..4 + Le16(extra[2..4])])
    ensures extra == EncodeField(f) + extra[4 + |f.data|..]
  {
    Le16Injective(extra[..2], PutLe16(f.id));
    Le16Injective(extra[2..4], PutLe16(|f.data|));
    assert extra == extra[..2] + extra[2..4] + f.data + extra[4 + |f.data|..];
  }

  lemma Le16Injective(a: Bytes, b: Bytes)
    requires |a| == 2 && |b| == 2 && Le16(a) == Le16(b)
    ensures a == b
  {
  }

  function NameFrom(walked: Walked, raw: Bytes): Result<(Bytes, bool), ()> {
    match walked
    case Recovered(name) => Ok((name, false))
    case NoUnicodePath => Ok((raw, true))
    case Malformed => Err(())
  }

  /**
   `zipEntryName`: the bytes to use as the name, and whether they are still of
   unknown encoding. A name without the flag set is used as it is.
   */
  method ZipEntryName(lib: Library, file: Member) returns (r: Result<(Bytes, bool), ()>)
    ensures !file.nonUtf8 ==> r == Ok((file.name, false))
    ensures file.nonUtf8 ==> r == NameFrom(Walk(lib, file.name, file.extra), file.name)
  {
    if !file.nonUtf8 {
      return Ok((file.name, false));
    }
    var extra := file.extra;
    while |extra| >= 4
      invariant Walk(lib, file.name, extra) == Walk(lib, file.name, file.extra)
      decreases |extra|
    {
      var id, size := Le16(extra[..2]), Le16(extra[2..4]);
      var after := extra[4..];
      if size > |after| {
        return Err(());
      }
      var field := after[..size];
      assert field == extra[4..4 + size] && after[size..] == extra[4 + size..];
      extra := after[size..];
      if id != UNICODE_PATH {
        continue;
      }
      if |field| < 5 || field[0] != 1 {
        return Err(());
      }
      if Le32(field[1..5]) != lib.crc(file.name) {
        return Err(());
      }
      var name := field[5..];
      if |name| == 0 || lib.decode(name).None? {
        return Err(());
      }
      return Ok((name, false));
    }
    if |extra| != 0 {
      return Err(());
    }
    r := Ok((file.name, true));
  }

  // ----- Safe names -----

  predicate WindowsDrive(s: string) {
    |s| >= 2 && s[1] == ':' && ('A' <= s[0] <= 'Z' || 'a' <= s[0] <= 'z')
  }

  /** It finds exactly the names that begin with an ASCII letter and a colon. */
  lemma DriveNamed(s: string)
    ensures WindowsDrive(s) <==>
      exists c: char, rest: string {:trigger [c] + ":" + rest} ::
        ('a' <= c <= 'z' || 'A' <= c <= 'Z') && s == [c] + ":" + rest
  {
    if WindowsDrive(s) {
      assert s == [s[0]] + ":" + s[2..];
    }
  }

  predicate EndsInSlash(s: string) {
    s != "" && s[|s| - 1] == '/'
  }

  /** The name without the slash that marks a directory. */
  function Trimmed(name: string, isDir: bool): string {
    if isDir && EndsInSlash(name) then name[..|name| - 1] else name
  }

  /** The syntax half of acceptance: a relative name made of safe components only. */
  ghost predicate SafeSyntax(name: string, isDir: bool) {
    !WindowsDrive(name) && AllSafe(Split(Trimmed(name, isDir)))
  }

  /** The limits half: depth, length, and what each component becomes on disk. */
  ghost predicate WithinLimits(lib: Library, name: string, isDir: bool, limits: Limits) {
    var parts := Split(Trimmed(name, isDir));
    && |parts| <= limits.maxPathDepth && ByteLen(Trimmed(name, isDir)) <= limits.maxPathBytes
    && forall i :: 0 <= i < |parts| ==> ByteLen(lib.nfc(parts[i])) <= 255
  }

  ghost predicate Free(s: string, bad: char -> bool) {
    forall i :: 0 <= i < |s| ==> !bad(s[i])
  }

  ghost predicate AllFree(p: Path, bad: char -> bool) {
    forall k :: 0 <= k < |p| ==> Free(p[k], bad)
  }

  lemma FreeConcat(s: string, t: string, bad: char -> bool)
    ensures Free(s + t, bad) <==> Free(s, bad) && Free(t, bad)
  {
    assert forall i :: 0 <= i < |s| ==> (s + t)[i] == s[i];
    assert forall i :: 0 <= i < |t| ==> (s + t)[|s| + i] == t[i];
  }

  lemma AllFreeCons(first: string, rest: Path, bad: char -> bool)
    ensures AllFree([first] + rest, bad) <==> Free(first, bad) && AllFree(rest, bad)
  {
    var p := [first] + rest;
    assert p[0] == first;
    assert forall k :: 0 <= k < |rest| ==> p[k + 1] == rest[k];
  }

  /** Every component of a split avoids a character exactly when the whole string does. */
  lemma {:induction false} SplitCharacters(s: string, bad: char -> bool)
    requires !bad('/')
    ensures Free(s, bad) <==> AllFree(Split(s), bad)
  {
    if s != "" {
      var rest := Split(s[1..]);
      SplitCharacters(s[1..], bad);
      assert s == [s[0]] + s[1..];
      FreeConcat([s[0]], s[1..], bad);
      if s[0] == '/' {
        AllFreeCons("", rest, bad);
      } else {
        assert rest == [rest[0]] + rest[1..];
        AllFreeCons(rest[0], rest[1..], bad);
        AllFreeCons([s[0]] + rest[0], rest[1..], bad);
        FreeConcat([s[0]], rest[0], bad);
      }
    }
  }

  predicate Forbidden(c: char) {
    c == '\\' || IsControl(c)
  }

  /** The order in which `safeName` looks at the syntax adds up to `SafeSyntax`. */
  lemma SyntaxChecks(name: string, isDir: bool)
    ensures var body := Trimmed(name, isDir);
      SafeSyntax(name, isDir) <==> (
        && name != "" && name[0] != '/' && !WindowsDrive(name)
        && Free(name, Forbidden)
        && body != "" && Clean(body) == body
        && (forall k :: 0 <= k < |Split(body)| ==> Normal(Split(body)[k])))
  {
    var body := Trimmed(name, isDir);
    var parts := Split(body);
    SplitCharacters(body, Forbidden);
    assert Free(name, Forbidden) <==> Free(body, Forbidden);
    if body != "" && body[0] == '/' {
      assert parts[0] == "";
    }
    if body != "" && body[0] != '/' {
      CleanFixpoint(body);
    }
    forall k | 0 <= k < |parts|
      ensures SafeComponent(parts[k]) <==> Normal(parts[k]) && Free(parts[k], Forbidden)
    {
      assert NoSlash(parts[k]);
    }
    if AllSafe(parts) {
      assert SafeComponent(parts[0]);
      assert Climbs(parts) by {
        assert forall k :: 0 <= k < |parts| ==> SafeComponent(parts[k]);
      }
    }
    if name != "" && name[0] == '/' && body != "" {
      assert body[0] == '/';
    }
  }

  /** The loop of `safeName` over the characters. */
  method HasControl(name: string) returns (found: bool)
    ensures found <==> exists i :: 0 <= i < |name| && IsControl(name[i])
  {
    for i := 0 to |name|
      invariant forall j :: 0 <= j < i ==> !IsControl(name[j])
    {
      if IsControl(name[i]) {
        return true;
      }
    }
    found := false;
  }

  /** Its loop over the components. */
  method CheckParts(lib: Library, parts: Path) returns (err: Option<Code>)
    ensures err.None? <==> forall k :: 0 <= k < |parts| ==> Normal(parts[k]) && ByteLen(lib.nfc(parts[k])) <= 255
    ensures err == Some(UnsafePath) ==> exists k :: 0 <= k < |parts| && !Normal(parts[k])
    ensures err == Some(LimitExceeded) ==> exists k :: 0 <= k < |parts| && ByteLen(lib.nfc(parts[k])) > 255
    ensures err.Some? ==> err.value in {UnsafePath, LimitExceeded}
  {
    for i := 0 to |parts|
      invariant forall k :: 0 <= k < i ==> Normal(parts[k]) && ByteLen(lib.nfc(parts[k])) <= 255
    {
      if parts[i] == "" || parts[i] == "." || parts[i] == ".." {
        return Some(UnsafePath);
      }
      if ByteLen(lib.nfc(parts[i])) > 255 {
        return Some(LimitExceeded);
      }
    }
    err := None;
  }

  /**
   `safeName`, given the decoded name (none if it is not UTF-8). It accepts exactly
   the relative names within limits all of whose components are safe, and returns
   them as a path.
   */
  method SafeName(lib: Library, decoded: Option<string>, nonUtf8: bool, isDir: bool, limits: Limits)
    returns (r: Result<Path, Code>)
    ensures r.Ok? <==>
              && !nonUtf8 && decoded.Some?
              && SafeSyntax(decoded.value, isDir) && WithinLimits(lib, decoded.value, isDir, limits)
    ensures r.Ok? ==> r.value == Split(Trimmed(decoded.value, isDir))
    ensures r == Err(LimitExceeded) ==> !nonUtf8 && decoded.Some? && !WithinLimits(lib, decoded.value, isDir, limits)
    ensures r == Err(UnsafePath) ==> nonUtf8 || decoded.None? || !SafeSyntax(decoded.value, isDir)
    ensures r.Err? ==> r.error in {UnsafePath, LimitExceeded}
  {
    if nonUtf8 || decoded.None? {
      return Err(UnsafePath);
    }
    var name := decoded.value;
    SyntaxChecks(name, isDir);
    hide Clean, ByteLen, Split, IsControl;
    if name == "" || '\\' in name || name[0] == '/' || WindowsDrive(name) {
      return Err(UnsafePath);
    }
    var control := HasControl(name);
    if control {
      return Err(UnsafePath);
    }
    var clean := name;
    if isDir && EndsInSlash(clean) {
      clean := clean[..|clean| - 1];
    }
    if clean == "" || Clean(clean) != clean {
      return Err(UnsafePath);
    }
    var parts := Split(clean);
    if |parts| > limits.maxPathDepth || ByteLen(clean) > limits.maxPathBytes {
      return Err(LimitExceeded);
    }
    var refused := CheckParts(lib, parts);
    r := if refused.Some? then Err(refused.value) else Ok(parts);
  }
}
