/** Single safe components for the output tree: internal/app/names.go. */
module Names {
  import opened Basics
  import opened Text
  import opened PosixPath
  import opened Decimals
  import opened ZipNames

  const ATTACHMENT := "attachment"
  const ARCHIVE := "archive"
  const MAX_NAME := 200

  // ----- String helpers -----

  /** `strings.ReplaceAll(s, "\\", "/")` */
  function ToSlash(s: string): (r: string)
    ensures |r| == |s|
  {
    seq(|s|, i requires 0 <= i < |s| => if s[i] == '\\' then '/' else s[i])
  }

  function TrimSlashes(s: string): (r: string)
    ensures r <= s && (r != "" ==> r[|r| - 1] != '/')
  {
    if s != "" && s[|s| - 1] == '/' then TrimSlashes(s[..|s| - 1]) else s
  }

  /** `path.Base` */
  function Base(s: string): string {
    if s == "" then "."
    else
      var parts := Split(TrimSlashes(s));
      if Last(parts) == "" then "/" else Last(parts)
  }

  predicate Kept(c: char) {
    !IsControl(c) && c != '/' && c != '\\'
  }

  /** The `strings.Map` that drops control characters and separators. */
  function DropUnsafe(s: string): (r: string)
    ensures forall i :: 0 <= i < |r| ==> Kept(r[i])
  {
    if s == "" then "" else (if Kept(s[0]) then [s[0]] else "") + DropUnsafe(s[1..])
  }

  function TrimLeft(s: string): string {
    if s != "" && IsSpace(s[0]) then TrimLeft(s[1..]) else s
  }

  function TrimRight(s: string): string {
    if s != "" && IsSpace(s[|s| - 1]) then TrimRight(s[..|s| - 1]) else s
  }

  /** `strings.TrimSpace` */
  function TrimSpace(s: string): string {
    TrimRight(TrimLeft(s))
  }

  /** `filepath.Ext` of a single component. */
  function Ext(s: string): (e: string)
    ensures |e| <= |s| && e == s[|s| - |e|..]
  {
    if s == "" then ""
    else
      var e := Ext(s[1..]);
      if e == "" && s[0] == '.' then s else e
  }

  /** The longest beginning of at most `n` bytes. */
  function Trim(s: string, n: int): (r: string)
    ensures r <= s && (ByteLen(r) <= n || r == "")
  {
    if s == "" || ByteLen(s) <= n then s else Trim(s[..|s| - 1], n)
  }

  /** `trimUTF8`: drops whole characters from the end until the rest fits. */
  method TrimUtf8(s: string, n: int) returns (r: string)
    ensures r == if n <= 0 then "" else Trim(s, n)
    ensures r <= s && ByteLen(r) <= Max(n, 0)
    ensures n > 0 && r != s ==> ByteLen(s[..|r| + 1]) > n
  {
    if n <= 0 {
      return "";
    }
    r := s;
    while ByteLen(r) > n
      invariant r <= s && Trim(r, n) == Trim(s, n)
      invariant r != s ==> ByteLen(s[..|r| + 1]) > n
      decreases |r|
    {
      assert r == s[..|r|];
      r := r[..|r| - 1];
    }
  }

  // ----- Names -----

  function OrAttachment(s: string): string {
    if Normal(s) then s else ATTACHMENT
  }

  /** `outputName` up to the length check. */
  function Sanitized(lib: Library, name: string): string {
    OrAttachment(TrimSpace(DropUnsafe(lib.nfc(Base(ToSlash(name))))))
  }

  /** The extension a cut name keeps: its own, unless that takes half of the room. */
  function KeptExt(name: string, maxBytes: int): (e: string)
    ensures |e| <= |name| && e == name[|name| - |e|..]
    ensures ByteLen(e) < maxBytes / 2 || e == ""
  {
    if ByteLen(Ext(name)) >= maxBytes / 2 then "" else Ext(name)
  }

  /** What is left of the rest of the name. */
  function Stem(name: string, room: int): (r: string)
    ensures r <= name && ByteLen(r) <= Max(room, 0)
  {
    if room <= 0 then "" else Trim(name[..|name| - |Ext(name)|], room)
  }

  /** Its second half: a long name is cut, with a short extension kept. */
  function Shortened(name: string, maxBytes: int): string {
    if ByteLen(name) <= maxBytes then name
    else
      var ext := KeptExt(name, maxBytes);
      OrAttachment(Stem(name, maxBytes - ByteLen(ext)) + ext)
  }

  /** `outputName` */
  function OutputName(lib: Library, name: string, maxBytes: int): string {
    Shortened(Sanitized(lib, name), maxBytes)
  }

  predicate AllKept(s: string) {
    forall i :: 0 <= i < |s| ==> Kept(s[i])
  }

  lemma {:induction false} TrimRightPart(s: string)
    ensures TrimRight(s) <= s
  {
    if s != "" && IsSpace(s[|s| - 1]) {
      TrimRightPart(s[..|s| - 1]);
    }
  }

  lemma {:induction false} TrimSpaceKept(s: string)
    requires AllKept(s)
    ensures AllKept(TrimSpace(s))
  {
    if s != "" && IsSpace(s[0]) {
      TrimSpaceKept(s[1..]);
    } else {
      TrimRightPart(s);
    }
  }

  predicate Letters(s: string) {
    s != "" && forall i :: 0 <= i < |s| ==> 'a' <= s[i] <= 'z'
  }

  lemma {:induction false} LettersSafe(s: string)
    requires Letters(s)
    ensures SafeComponent(s) && ByteLen(s) == |s|
  {
    assert s != "." && s != ".." by {
      assert s[0] != '.';
    }
    if |s| > 1 {
      LettersSafe(s[1..]);
    }
  }

  lemma AttachmentSafe()
    ensures SafeComponent(ATTACHMENT) && SafeComponent(ARCHIVE) && ByteLen(ATTACHMENT) == 10 && ByteLen(ARCHIVE) == 7
  {
    hide SafeComponent, ByteLen;
    assert Letters(ATTACHMENT) && |ATTACHMENT| == 10;
    assert Letters(ARCHIVE) && |ARCHIVE| == 7;
    LettersSafe(ATTACHMENT);
    LettersSafe(ARCHIVE);
  }

  lemma SanitizedSafe(lib: Library, name: string)
    ensures SafeComponent(Sanitized(lib, name))
  {
    AttachmentSafe();
    TrimSpaceKept(DropUnsafe(lib.nfc(Base(ToSlash(name)))));
  }

  /** A name made of parts of a safe name is safe, unless it is nothing or dots. */
  lemma PartsSafe(name: string, front: string, back: string)
    requires SafeComponent(name) && front <= name && |back| <= |name| && back == name[|name| - |back|..]
    ensures SafeComponent(OrAttachment(front + back))
    ensures
      || ByteLen(OrAttachment(front + back)) <= ByteLen(front) + ByteLen(back)
      || OrAttachment(front + back) == ATTACHMENT
  {
    AttachmentSafe();
    ByteLenConcat(front, back);
    hide ByteLen, IsControl, ATTACHMENT;
    var s := front + back;
    forall i | 0 <= i < |s|
      ensures s[i] != '/' && s[i] != '\\' && !IsControl(s[i])
    {
      assert s[i] == if i < |front| then name[i] else name[|name| - |back| + (i - |front|)];
    }
  }

  lemma ShortenedSafe(name: string, maxBytes: int)
    requires SafeComponent(name)
    ensures SafeComponent(Shortened(name, maxBytes))
    ensures ByteLen(Shortened(name, maxBytes)) <= maxBytes || Shortened(name, maxBytes) == ATTACHMENT
  {
    hide SafeComponent, Stem, KeptExt, ATTACHMENT, ByteLen, OrAttachment;
    if ByteLen(name) > maxBytes {
      var ext := KeptExt(name, maxBytes);
      var stem := Stem(name, maxBytes - ByteLen(ext));
      PartsSafe(name, stem, ext);
      NothingLeft(stem);
      assert stem == "" && ext == "" ==> OrAttachment(stem + ext) == ATTACHMENT by {
        assert stem == "" && ext == "" ==> stem + ext == "";
        NothingIsAttachment();
      }
    }
  }

  lemma NothingIsAttachment()
    ensures OrAttachment("") == ATTACHMENT
  {
  }

  lemma NothingLeft(s: string)
    ensures ByteLen(s) <= 0 ==> s == ""
    ensures ByteLen("") == 0
  {
  }

  /**
   Whatever the client calls a file, the output name is one safe component of at most
   the given length, or the stand-in "attachment".
   */
  lemma OutputNameSafe(lib: Library, name: string, maxBytes: int)
    ensures SafeComponent(OutputName(lib, name, maxBytes))
    ensures ByteLen(OutputName(lib, name, maxBytes)) <= maxBytes || OutputName(lib, name, maxBytes) == ATTACHMENT
  {
    SanitizedSafe(lib, name);
    ShortenedSafe(Sanitized(lib, name), maxBytes);
  }

  lemma {:induction false} TrimFills(s: string, n: int)
    requires 0 <= n < ByteLen(s)
    ensures ByteLen(Trim(s, n)) >= n - 3
  {
    var front := s[..|s| - 1];
    assert s == front + [s[|s| - 1]];
    ByteLenConcat(front, [s[|s| - 1]]);
    if ByteLen(front) > n {
      TrimFills(front, n);
    }
  }

  /** A long name with a short extension keeps it, and as much of the rest as fits. */
  lemma ExtensionKept(name: string, maxBytes: int)
    requires SafeComponent(name) && maxBytes >= 16 && ByteLen(name) > maxBytes && ByteLen(Ext(name)) < maxBytes / 2
    ensures var r := Shortened(name, maxBytes);
      && maxBytes - 3 <= ByteLen(r) <= maxBytes
      && |Ext(name)| <= |r| && r[..|r| - |Ext(name)|] <= name && r[|r| - |Ext(name)|..] == Ext(name)
  {
    hide ByteLen, SafeComponent, Ext, Trim;
    var ext := Ext(name);
    var base := name[..|name| - |ext|];
    assert name == base + ext;
    ByteLenConcat(base, ext);
    TrimFills(base, maxBytes - ByteLen(ext));
    var stem := Trim(base, maxBytes - ByteLen(ext));
    ByteLenConcat(stem, ext);
    ByteLenBounds(stem + ext);
    ByteLenBounds(ext);
    assert Stem(name, maxBytes - ByteLen(ext)) == stem;
    assert Shortened(name, maxBytes) == stem + ext;
  }

  /** An extension that would take half of the room is dropped, and then the rest is cut if it must be. */
  lemma LongExtensionDropped(name: string, maxBytes: int)
    requires SafeComponent(name) && maxBytes >= 16 && ByteLen(name) > maxBytes && ByteLen(Ext(name)) >= maxBytes / 2
    ensures var base, r := name[..|name| - |Ext(name)|], Shortened(name, maxBytes);
      && (ByteLen(base) <= maxBytes && Normal(base) ==> r == base)
      && (ByteLen(base) > maxBytes ==> r <= base && maxBytes - 3 <= ByteLen(r) <= maxBytes)
      && (!Normal(base) ==> r == "attachment")
  {
    hide ByteLen, SafeComponent, Ext, Trim, Stem, ATTACHMENT;
    var base := name[..|name| - |Ext(name)|];
    NothingLeft("");
    var stem := Trim(base, maxBytes);
    assert Stem(name, maxBytes) == stem by {
      StemIs(name, maxBytes);
    }
    assert stem + "" == stem;
    if ByteLen(base) > maxBytes {
      TrimFills(base, maxBytes);
      ByteLenBounds(stem);
    }
    ShortTrim(base, maxBytes);
    AttachmentIs();
  }

  lemma AttachmentIs()
    ensures ATTACHMENT == "attachment"
  {
  }

  lemma StemIs(name: string, room: int)
    requires room > 0
    ensures Stem(name, room) == Trim(name[..|name| - |Ext(name)|], room)
  {
    hide Trim, Ext, ByteLen;
  }

  lemma ShortTrim(s: string, n: int)
    ensures ByteLen(s) <= n ==> Trim(s, n) == s
    ensures !Normal(s) ==> ByteLen(s) <= 2
  {
    assert ByteLen(".") == 1 && ByteLen("..") == 2;
  }

  // ----- Directories for archives -----

  /** `strings.EqualFold(e, ".zip")` */
  predicate IsZip(e: string) {
    |e| == 4 && e[0] == '.' && e[1] in {'z', 'Z'} && e[2] in {'i', 'I'} && e[3] in {'p', 'P'}
  }

  /** `archiveDirectory` */
  function ArchiveDirectory(lib: Library, name: string): string {
    var n := OutputName(lib, name, MAX_NAME);
    var d := if IsZip(Ext(n)) then n[..|n| - 4] else n;
    if d == "" then ARCHIVE else d
  }

  /** Names that are nothing but dots before the archive extension. */
  predicate DotsZip(n: string) {
    IsZip(Ext(n)) && (n[..|n| - 4] == "." || n[..|n| - 4] == "..")
  }

  lemma ArchiveDirectoryKept(lib: Library, name: string)
    ensures AllKept(ArchiveDirectory(lib, name)) && ArchiveDirectory(lib, name) != ""
    ensures ByteLen(ArchiveDirectory(lib, name)) <= MAX_NAME
  {
    hide ByteLen, OutputName, IsControl, ATTACHMENT, ARCHIVE, Ext;
    OutputNameSafe(lib, name, MAX_NAME);
    AttachmentSafe();
    var n := OutputName(lib, name, MAX_NAME);
    if IsZip(Ext(n)) {
      ByteLenConcat(n[..|n| - 4], n[|n| - 4..]);
      assert n == n[..|n| - 4] + n[|n| - 4..];
    }
  }

  /**
   On its own the directory name is safe except for exactly two families of archive
   names, "..zip" and "...zip", which become "." and "..".
   */
  lemma ArchiveDirectorySafe(lib: Library, name: string)
    ensures SafeComponent(ArchiveDirectory(lib, name)) <==> !DotsZip(OutputName(lib, name, MAX_NAME))
  {
    ArchiveDirectoryKept(lib, name);
    OutputNameSafe(lib, name, MAX_NAME);
    AttachmentSafe();
    hide OutputName, ByteLen, IsControl;
  }

  /** `numberedName` */
  function NumberedName(index: nat, total: nat, name: string): string {
    Pad(index + 1, Max(2, |Itoa(total)|)) + "-" + name
  }

  /** The number in front makes any such name safe again, */
  lemma NumberedSafe(index: nat, total: nat, name: string)
    requires AllKept(name)
    ensures SafeComponent(NumberedName(index, total, name))
  {
    var digits := Pad(index + 1, Max(2, |Itoa(total)|));
    var r := NumberedName(index, total, name);
    hide Pad, Itoa, IsControl, AllDigits;
    forall i | 0 <= i < |r|
      ensures r[i] != '/' && r[i] != '\\' && !IsControl(r[i])
    {
      if i < |digits| {
        DigitKept(digits, i);
      } else {
        assert i == |digits| ==> r[i] == '-';
        DashKept();
        assert i > |digits| ==> r[i] == name[i - |digits| - 1] && Kept(r[i]);
      }
    }
    DigitKept(digits, 0);
    assert r[0] == digits[0];
  }

  lemma DigitKept(s: string, i: nat)
    requires AllDigits(s) && i < |s|
    ensures s[i] != '/' && s[i] != '\\' && s[i] != '.' && !IsControl(s[i])
  {
    assert IsDigit(s[i]);
  }

  lemma DashKept()
    ensures !IsControl('-')
  {
  }

  /** and leaves it short enough for the file system. */
  lemma NumberedLength(index: nat, total: nat, name: string)
    requires index < total < Pow10(5)
    ensures ByteLen(NumberedName(index, total, name)) <= 6 + ByteLen(name)
  {
    var digits := Pad(index + 1, Max(2, |Itoa(total)|));
    assert digits + "-" + name == digits + ("-" + name);
    ByteLenConcat(digits, "-" + name);
    ByteLenConcat("-", name);
    assert ByteLen("-") == 1;
    DigitsAscii(digits);
    ItoaMonotone(index + 1, total);
    ItoaLength(total, 5);
  }

  /** Numerals of one length are in the order of their numbers, whatever follows. */
  lemma {:induction false} NumeralOrder(a: string, b: string, x: string, y: string)
    requires AllDigits(a) && AllDigits(b) && |a| == |b| && Value(a) < Value(b)
    ensures Less(a + x, b + y)
    decreases |a|
  {
    var n := |a| - 1;
    assert a + x == a[..n] + ([a[n]] + x) && b + y == b[..n] + ([b[n]] + y);
    if Value(a[..n]) < Value(b[..n]) {
      NumeralOrder(a[..n], b[..n], [a[n]] + x, [b[n]] + y);
    } else {
      SameNumeral(a[..n], b[..n]);
      SameFrontLess(a[..n], [a[n]] + x, [b[n]] + y);
    }
  }

  lemma {:induction false} SameNumeral(a: string, b: string)
    requires AllDigits(a) && AllDigits(b) && |a| == |b| && Value(a) == Value(b)
    ensures a == b
  {
    if a != "" {
      var n := |a| - 1;
      SameNumeral(a[..n], b[..n]);
      assert a == a[..n] + [a[n]] && b == b[..n] + [b[n]];
    }
  }

  /** In a sorted listing the uploads of a batch stand in their order, whatever they are called. */
  lemma NumberedOrder(i: nat, j: nat, total: nat, a: string, b: string)
    requires i < j < total
    ensures Less(NumberedName(i, total, a), NumberedName(j, total, b))
  {
    var width := Max(2, |Itoa(total)|);
    var x, y := Pad(i + 1, width), Pad(j + 1, width);
    ValuePad(i + 1, width);
    ValuePad(j + 1, width);
    ItoaMonotone(i + 1, total);
    ItoaMonotone(j + 1, total);
    hide Pad, Itoa, Value, Less;
    assert NumberedName(i, total, a) == x + ("-" + a) && NumberedName(j, total, b) == y + ("-" + b);
    NumeralOrder(x, y, "-" + a, "-" + b);
  }

  /** What a numbered name consists of. */
  lemma NumberedParts(index: nat, total: nat, name: string) returns (digits: string)
    ensures NumberedName(index, total, name) == digits + "-" + name
    ensures AllDigits(digits) && Value(digits) == index + 1 && |digits| >= 2
  {
    digits := Pad(index + 1, Max(2, |Itoa(total)|));
    ValuePad(index + 1, Max(2, |Itoa(total)|));
  }

  function FirstDash(s: string): nat {
    if s == "" || s[0] == '-' then 0 else 1 + FirstDash(s[1..])
  }

  lemma {:induction false} FirstDashFound(digits: string, rest: string)
    requires AllDigits(digits)
    ensures FirstDash(digits + "-" + rest) == |digits|
  {
    var s := digits + "-" + rest;
    if digits != "" {
      assert IsDigit(digits[0]) && s[0] == digits[0];
      assert s[1..] == digits[1..] + "-" + rest;
      FirstDashFound(digits[1..], rest);
    }
  }

  /** The number can be read back: names of different uploads differ, whatever the rest. */
  lemma NumberedInjective(i: nat, j: nat, total: nat, a: string, b: string)
    requires NumberedName(i, total, a) == NumberedName(j, total, b)
    ensures i == j && a == b
  {
    var width := Max(2, |Itoa(total)|);
    var x, y := Pad(i + 1, width), Pad(j + 1, width);
    ValuePad(i + 1, width);
    ValuePad(j + 1, width);
    var r := x + "-" + a;
    assert r == y + "-" + b;
    FirstDashFound(x, a);
    FirstDashFound(y, b);
    assert x == r[..|x|] && y == r[..|y|];
    assert a == r[|x| + 1..] && b == r[|y| + 1..];
  }

  /** The record identifiers differ too. */
  function RecordId(n: nat): string {
    "f_" + Pad(n, 4)
  }

  lemma RecordIdInjective(m: nat, n: nat)
    requires RecordId(m) == RecordId(n)
    ensures m == n
  {
    assert RecordId(m)[2..] == Pad(m, 4) && RecordId(n)[2..] == Pad(n, 4);
    ValuePad(m, 4);
    ValuePad(n, 4);
  }

  // ----- Names that need no change -----

  lemma {:induction false} DropNothing(s: string)
    requires AllKept(s)
    ensures DropUnsafe(s) == s
  {
    if s != "" {
      assert Kept(s[0]);
      DropNothing(s[1..]);
      assert s == [s[0]] + s[1..];
    }
  }

  /** A safe name that is normalised, not padded with spaces and short enough. */
  predicate PlainName(lib: Library, name: string, maxBytes: int) {
    && SafeComponent(name) && lib.nfc(name) == name && ByteLen(name) <= maxBytes
    && !IsSpace(name[0]) && !IsSpace(name[|name| - 1])
  }

  /** It is kept as it is. */
  lemma PlainNameKept(lib: Library, name: string, maxBytes: int)
    requires PlainName(lib, name, maxBytes)
    ensures OutputName(lib, name, maxBytes) == name
  {
    hide IsSpace, IsControl, ByteLen;
    assert ToSlash(name) == name;
    assert TrimSlashes(name) == name;
    SplitNoSlash(name);
    assert AllKept(name);
    DropNothing(name);
    assert TrimLeft(name) == name && TrimRight(name) == name;
  }

  /** Slashes of either kind. */
  predicate Slashes(s: string) {
    forall i :: 0 <= i < |s| ==> s[i] == '/' || s[i] == '\\'
  }

  lemma {:induction false} TrimSlashesOff(s: string, back: string)
    requires s != "" && s[|s| - 1] != '/' && forall i :: 0 <= i < |back| ==> back[i] == '/'
    ensures TrimSlashes(s + back) == s
  {
    if back == "" {
      assert s + back == s;
    } else {
      var t := s + back;
      assert t[..|t| - 1] == s + back[..|back| - 1];
      TrimSlashesOff(s, back[..|back| - 1]);
    }
  }

  /** The directories that a client puts in front of a plain name are dropped, whichever slash it uses. */
  lemma DirectoriesDropped(lib: Library, front: string, slash: char, name: string, back: string, maxBytes: int)
    requires PlainName(lib, name, maxBytes) && (slash == '/' || slash == '\\') && Slashes(back)
    ensures OutputName(lib, front + [slash] + name + back, maxBytes) == name
  {
    hide IsSpace, IsControl, ByteLen, Split, TrimSlashes, DropUnsafe, Shortened;
    var s := front + [slash] + name + back;
    var t := ToSlash(front) + "/" + name;
    assert ToSlash(name) == name && NoSlash(name);
    assert ToSlash(s) == t + ToSlash(back);
    assert t[|t| - 1] == name[|name| - 1];
    TrimSlashesOff(t, ToSlash(back));
    SplitLast(ToSlash(front), name);
    assert Base(ToSlash(s)) == name;
    PlainNameKept(lib, name, maxBytes);
    assert ToSlash(name) == name;
    SplitNoSlash(name);
    BaseOfName(name);
  }

  lemma BaseOfName(name: string)
    requires NoSlash(name) && name != ""
    ensures Base(name) == name
  {
    SplitNoSlash(name);
  }

  /** Nothing but spaces and control characters. */
  predicate Blank(s: string) {
    forall i :: 0 <= i < |s| ==> (IsSpace(s[i]) || IsControl(s[i])) && s[i] != '/' && s[i] != '\\'
  }

  lemma {:induction false} DropUnsafeConcat(s: string, t: string)
    ensures DropUnsafe(s + t) == DropUnsafe(s) + DropUnsafe(t)
  {
    if s == "" {
      assert s + t == t;
    } else {
      assert (s + t)[1..] == s[1..] + t;
      DropUnsafeConcat(s[1..], t);
    }
  }

  predicate AllSpace(s: string) {
    forall i :: 0 <= i < |s| ==> IsSpace(s[i])
  }

  lemma {:induction false} BlankIsSpace(s: string)
    requires Blank(s)
    ensures AllSpace(DropUnsafe(s))
  {
    hide IsSpace, IsControl;
    if s != "" {
      BlankIsSpace(s[1..]);
    }
  }

  lemma {:induction false} TrimLeftOff(front: string, s: string)
    requires AllSpace(front) && s != "" && !IsSpace(s[0])
    ensures TrimLeft(front + s) == s
  {
    hide IsSpace;
    if front == "" {
      assert front + s == s;
    } else {
      assert (front + s)[1..] == front[1..] + s;
      TrimLeftOff(front[1..], s);
    }
  }

  lemma {:induction false} TrimRightOff(s: string, back: string)
    requires AllSpace(back) && s != "" && !IsSpace(s[|s| - 1])
    ensures TrimRight(s + back) == s
  {
    hide IsSpace;
    if back == "" {
      assert s + back == s;
    } else {
      var t := s + back;
      assert t[..|t| - 1] == s + back[..|back| - 1];
      TrimRightOff(s, back[..|back| - 1]);
    }
  }

  lemma SpaceTrimmed(front: string, s: string, back: string)
    requires AllSpace(front) && AllSpace(back) && s != "" && !IsSpace(s[0]) && !IsSpace(s[|s| - 1])
    ensures TrimSpace(front + s + back) == s
  {
    hide IsSpace;
    assert front + s + back == front + (s + back);
    TrimLeftOff(front, s + back);
    TrimRightOff(s, back);
  }

  /** So are spaces and control characters around it. */
  lemma BlanksDropped(lib: Library, front: string, name: string, back: string, maxBytes: int)
    requires PlainName(lib, name, maxBytes) && Blank(front) && Blank(back)
    requires lib.nfc(front + name + back) == front + name + back
    ensures OutputName(lib, front + name + back, maxBytes) == name
  {
    var s := front + name + back;
    BlankIsSpace(front);
    BlankIsSpace(back);
    DropUnsafeConcat(front + name, back);
    DropUnsafeConcat(front, name);
    DropNothing(name);
    SpaceTrimmed(DropUnsafe(front), name, DropUnsafe(back));
    hide IsSpace, IsControl, ByteLen, DropUnsafe, TrimSpace;
    assert NoSlash(s) && ToSlash(s) == s;
    BaseOfName(s);
    assert Sanitized(lib, s) == OrAttachment(name);
  }

  lemma {:induction false} NoDotNoExt(s: string)
    requires '.' !in s
    ensures Ext(s) == ""
  {
    if s != "" {
      NoDotNoExt(s[1..]);
    }
  }

  lemma {:induction false} ExtAfterDot(front: string, rest: string)
    requires '.' !in rest
    ensures Ext(front + "." + rest) == "." + rest
  {
    var s := front + "." + rest;
    if front == "" {
      assert s[1..] == rest;
      NoDotNoExt(rest);
    } else {
      assert s[1..] == front[1..] + "." + rest;
      ExtAfterDot(front[1..], rest);
    }
  }

  /** "zip" in any case of letters. */
  predicate ZipLetters(e: string) {
    |e| == 3 && e[0] in "zZ" && e[1] in "iI" && e[2] in "pP"
  }

  ghost predicate EndsInZip(name: string) {
    exists stem: string, e: string {:trigger stem + "." + e} :: ZipLetters(e) && name == stem + "." + e
  }

  lemma ZipIsExtension(front: string, e: string)
    requires ZipLetters(e)
    ensures Ext(front + "." + e) == "." + e && IsZip("." + e)
  {
    ExtAfterDot(front, e);
  }

  /** The directory of a plain archive name is the name without its extension, or "archive" if nothing else is left; */
  lemma ZipDirectory(lib: Library, stem: string, e: string)
    requires ZipLetters(e) && PlainName(lib, stem + "." + e, MAX_NAME)
    ensures ArchiveDirectory(lib, stem + "." + e) == if stem == "" then "archive" else stem
  {
    hide PlainName, OutputName, Ext, IsZip, ZipLetters, ATTACHMENT, MAX_NAME;
    var name := stem + "." + e;
    PlainNameKept(lib, name, MAX_NAME);
    ZipIsExtension(stem, e);
    ZipCut(stem, e);
  }

  lemma ZipCut(stem: string, e: string)
    requires ZipLetters(e)
    ensures |stem + "." + e| >= 4 && (stem + "." + e)[..|stem + "." + e| - 4] == stem
  {
  }

  /** that of any other plain name is the name. */
  lemma OtherDirectory(lib: Library, name: string)
    requires PlainName(lib, name, MAX_NAME)
    requires !EndsInZip(name)
    ensures ArchiveDirectory(lib, name) == name
  {
    hide PlainName, OutputName, Ext, EndsInZip, SafeComponent;
    PlainNameKept(lib, name, MAX_NAME);
    if IsZip(Ext(name)) {
      ZipParts(name);
    }
    NotNothing(lib, name);
  }

  lemma NotNothing(lib: Library, name: string)
    requires PlainName(lib, name, MAX_NAME)
    ensures name != ""
  {
  }

  lemma ZipParts(name: string)
    requires IsZip(Ext(name))
    ensures EndsInZip(name)
  {
    var e := Ext(name);
    hide Ext;
    assert ZipLetters(e[1..]);
    assert name == name[..|name| - 4] + "." + e[1..];
  }

  /** Both families occur: with no normalisation to do, these names become "." and "..". */
  lemma DotsZipOccurs(lib: Library)
    requires lib.nfc("..zip") == "..zip" && lib.nfc("...zip") == "...zip"
    ensures ArchiveDirectory(lib, "..zip") == "." && ArchiveDirectory(lib, "...zip") == ".."
  {
    assert "." + ".zip" == "..zip" && ".." + ".zip" == "...zip";
    DotsZipDirectory(lib, ".");
    DotsZipDirectory(lib, "..");
  }

  lemma DotsZipDirectory(lib: Library, dots: string)
    requires dots in {".", ".."} && lib.nfc(dots + ".zip") == dots + ".zip"
    ensures ArchiveDirectory(lib, dots + ".zip") == dots
  {
    hide ByteLen, OutputName, Ext;
    var name := dots + ".zip";
    assert |name| <= 6;
    ByteLenBounds(name);
    assert PlainName(lib, name, MAX_NAME);
    hide SafeComponent, IsSpace, PlainName;
    assert name == dots + "." + "zip";
    ZipDirectory(lib, dots, "zip");
  }
}
