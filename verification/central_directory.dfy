/**
 The entry count of a ZIP file, bounded before anything is allocated for it
 (`checkEntryCount` and `countCentralHeaders` of internal/archive/zip.go).
 Sections 4.3.12 and 4.3.16 of the ZIP application note.
 */
module CentralDirectory {
  import opened Basics
  import opened BoundedCopy

  const HEADER_SIZE := 46
  const EOCD_SIZE := 22
  const WINDOW := 65 * 1024
  const HEADER_SIGNATURE: nat := 0x02014b50
  const LOCATOR_SIGNATURE: nat := 0x07064b50
  const EOCD_SIGNATURE: Bytes := [0x50, 0x4B, 5, 6]

  // ----- Walking the headers -----

  /** How many intact headers there are in a row, and whether the next one runs past the end. */
  datatype Walked = Walked(count: nat, broken: bool)

  function HeaderLength(data: Bytes, offset: nat): nat
    requires offset + HEADER_SIZE <= |data|
  {
    HEADER_SIZE + Le16(data[offset + 28..offset + 30]) + Le16(data[offset + 30..offset + 32]) +
      Le16(data[offset + 32..offset + 34])
  }

  function WalkHeaders(data: Bytes, offset: nat, end: nat): (w: Walked)
    requires end <= |data|
    decreases end - offset
  {
    if offset + HEADER_SIZE > end || Le32(data[offset..offset + 4]) != HEADER_SIGNATURE then Walked(0, false)
    else
      var next := offset + HeaderLength(data, offset);
      if next > end then Walked(0, true)
      else
        var rest := WalkHeaders(data, next, end);
        Walked(rest.count + 1, rest.broken)
  }

  /** A central directory header. Only its signature and three lengths matter to the walk. */
  datatype Header = Header(front: Bytes, name: Bytes, extra: Bytes, comment: Bytes, back: Bytes)

  ghost predicate HeaderFits(h: Header) {
    |h.front| == 24 && |h.back| == 12 && |h.name| < 0x1_0000 && |h.extra| < 0x1_0000 && |h.comment| < 0x1_0000
  }

  function EncodeHeader(h: Header): Bytes
    requires HeaderFits(h)
  {
    PutLe32(HEADER_SIGNATURE) + h.front + PutLe16(|h.name|) + PutLe16(|h.extra|) + PutLe16(|h.comment|) + h.back
    + h.name + h.extra + h.comment
  }

  ghost function EncodeHeaders(hs: seq<Header>): Bytes
    requires forall i :: 0 <= i < |hs| ==> HeaderFits(hs[i])
  {
    if hs == [] then [] else EncodeHeader(hs[0]) + EncodeHeaders(hs[1..])
  }

  lemma HeaderFields(h: Header, data: Bytes, o: nat)
    requires HeaderFits(h)
    requires o + |EncodeHeader(h)| <= |data| && data[o..o + |EncodeHeader(h)|] == EncodeHeader(h)
    ensures Le32(data[o..o + 4]) == HEADER_SIGNATURE
    ensures HEADER_SIZE <= |EncodeHeader(h)| == HeaderLength(data, o)
  {
    var e := EncodeHeader(h);
    HeaderLayout(h);
    SliceOfSlice(data, o, |e|, 0, 4);
    SliceOfSlice(data, o, |e|, 28, 30);
    SliceOfSlice(data, o, |e|, 30, 32);
    SliceOfSlice(data, o, |e|, 32, 34);
  }

  lemma SliceOfSlice(data: Bytes, o: nat, n: nat, i: nat, j: nat)
    requires i <= j <= n && o + n <= |data|
    ensures data[o..o + n][i..j] == data[o + i..o + j]
  {
    var a, b := data[o..o + n][i..j], data[o + i..o + j];
    assert |a| == |b| && forall k :: 0 <= k < |a| ==> a[k] == b[k];
  }

  /** Where the printer puts what the walk reads. */
  lemma HeaderLayout(h: Header)
    requires HeaderFits(h)
    ensures var e := EncodeHeader(h);
      && |e| == HEADER_SIZE + |h.name| + |h.extra| + |h.comment|
      && e[..4] == PutLe32(HEADER_SIGNATURE)
      && e[28..30] == PutLe16(|h.name|) && e[30..32] == PutLe16(|h.extra|) && e[32..34] == PutLe16(|h.comment|)
  {
  }

  /** The walk counts exactly the headers that were printed, wherever they stand. */
  lemma {:induction false} WalkPrinted(data: Bytes, start: nat, end: nat, hs: seq<Header>)
    requires forall i :: 0 <= i < |hs| ==> HeaderFits(hs[i])
    requires start <= end <= |data| && data[start..end] == EncodeHeaders(hs)
    ensures WalkHeaders(data, start, end) == Walked(|hs|, false)
    decreases |hs|
  {
    if hs != [] {
      hide EncodeHeader, HeaderLength;
      var first := EncodeHeader(hs[0]);
      var next := start + |first|;
      Divided(data, start, end, first, EncodeHeaders(hs[1..]));
      HeaderFields(hs[0], data, start);
      WalkPrinted(data, next, end, hs[1..]);
      WalkOne(data, start, end, |first|);
    }
  }

  lemma Divided(data: Bytes, start: nat, end: nat, first: Bytes, more: Bytes)
    requires start <= end <= |data| && data[start..end] == first + more
    ensures start + |first| <= end && data[start..start + |first|] == first && data[start + |first|..end] == more
  {
    assert data[start..end][..|first|] == data[start..start + |first|];
    assert data[start..end][|first|..] == data[start + |first|..end];
  }

  lemma WalkOne(data: Bytes, offset: nat, end: nat, length: nat)
    requires HEADER_SIZE <= length && offset + length <= end <= |data|
    requires Le32(data[offset..offset + 4]) == HEADER_SIGNATURE && HeaderLength(data, offset) == length
    ensures WalkHeaders(data, offset, end) ==
            Walked(WalkHeaders(data, offset + length, end).count + 1, WalkHeaders(data, offset + length, end).broken)
  {
  }

  /**
   `countCentralHeaders`: the number of intact headers if there are at most
   `maxEntries` of them, an error if the next one is broken, and `maxEntries + 1`
   as soon as there are more, however the directory goes on.
   */
  method CountCentralHeaders(data: Bytes, start: nat, end: nat, maxEntries: nat) returns (r: Result<nat, Code>)
    requires end <= |data|
    ensures var w := WalkHeaders(data, start, end);
      r == if w.count > maxEntries then Ok(maxEntries + 1) else if w.broken then Err(Invalid) else Ok(w.count)
  {
    var offset: nat, count: nat := start, 0;
    while true
      invariant 0 <= count <= maxEntries + 1
      invariant count <= maxEntries || WalkHeaders(data, start, end).count > maxEntries
      invariant WalkHeaders(data, start, end).count == count + WalkHeaders(data, offset, end).count
      invariant WalkHeaders(data, start, end).broken == WalkHeaders(data, offset, end).broken
      decreases maxEntries + 1 - count
    {
      if count > maxEntries {
        return Ok(count);
      }
      if offset + HEADER_SIZE > end {
        return Ok(count);
      }
      if Le32(data[offset..offset + 4]) != HEADER_SIGNATURE {
        return Ok(count);
      }
      var next := offset + HeaderLength(data, offset);
      if next > end {
        return Err(Invalid);
      }
      offset, count := next, count + 1;
    }
  }

  // ----- Finding the end record -----

  /** An end-of-central-directory record whose comment fits into the file. */
  predicate EndRecordAt(data: Bytes, o: nat) {
    && o + EOCD_SIZE <= |data|
    && data[o..o + 4] == EOCD_SIGNATURE
    && o + EOCD_SIZE + Le16(data[o + 20..o + 22]) <= |data|
  }

  function WindowStart(data: Bytes): nat {
    |data| - Min(|data|, WINDOW)
  }

  /** The last such record in the window is the one that counts. */
  ghost predicate Chosen(data: Bytes, o: nat) {
    && WindowStart(data) <= o && EndRecordAt(data, o)
    && forall p: nat :: o < p ==> !EndRecordAt(data, p)
  }

  predicate HasZip64Locator(data: Bytes, o: nat) {
    o >= 20 && o <= |data| && Le32(data[o - 20..o - 16]) == LOCATOR_SIGNATURE
  }

  function DirectorySize(data: Bytes, o: nat): nat
    requires EndRecordAt(data, o)
  {
    Le32(data[o + 12..o + 16])
  }

  function DirectoryOffset(data: Bytes, o: nat): nat
    requires EndRecordAt(data, o)
  {
    Le32(data[o + 16..o + 20])
  }

  function DeclaredEntries(data: Bytes, o: nat): nat
    requires EndRecordAt(data, o)
  {
    Le16(data[o + 10..o + 12])
  }

  /** One disk and no ZIP64. */
  predicate Classic(data: Bytes, o: nat)
    requires EndRecordAt(data, o)
  {
    && Le16(data[o + 4..o + 6]) == 0 && Le16(data[o + 6..o + 8]) == 0
    && DeclaredEntries(data, o) != 0xFFFF && DirectorySize(data, o) != 0xFFFF_FFFF
    && DirectoryOffset(data, o) != 0xFFFF_FFFF && !HasZip64Locator(data, o)
  }

  ghost predicate WalkBounded(data: Bytes, start: nat, end: nat, maxEntries: nat)
    requires end <= |data|
  {
    WalkHeaders(data, start, end).count <= maxEntries && !WalkHeaders(data, start, end).broken
  }

  /**
   What is promised about a file before it is opened: the declared count, the walk
   that ends at the end record, and, when the file has bytes in front of the
   archive, the walk from the recorded offset as well.
   */
  ghost predicate Bounded(data: Bytes, o: nat, maxEntries: nat)
    requires EndRecordAt(data, o)
  {
    var start := o - DirectorySize(data, o);
    && Classic(data, o)
    && DeclaredEntries(data, o) <= maxEntries
    && start >= 0 && WalkBounded(data, start, o, maxEntries)
    && (start > DirectoryOffset(data, o) ==> WalkBounded(data, DirectoryOffset(data, o), o, maxEntries))
  }

  ghost predicate CountBounded(data: Bytes, maxEntries: nat) {
    forall o: nat :: Chosen(data, o) ==> Bounded(data, o, maxEntries)
  }

  /** Where the directory may start: before the end record, or at the recorded offset if that is smaller. */
  predicate Candidate(data: Bytes, o: nat, start: nat)
    requires EndRecordAt(data, o)
  {
    || start == o - DirectorySize(data, o)
    || (start == DirectoryOffset(data, o) && start < o - DirectorySize(data, o))
  }

  /** The declared count or a walk from one of the two candidate starts really exceeds the bound. */
  ghost predicate TooMany(data: Bytes, o: nat, maxEntries: nat)
    requires EndRecordAt(data, o)
  {
    || DeclaredEntries(data, o) > maxEntries
    || exists start: nat :: Candidate(data, o, start) && WalkHeaders(data, start, o).count > maxEntries
  }

  /** The directory does not fit in front of the end record, or one of its candidates is damaged. */
  ghost predicate Damaged(data: Bytes, o: nat)
    requires EndRecordAt(data, o)
  {
    || DirectorySize(data, o) > o
    || exists start: nat :: Candidate(data, o, start) && WalkHeaders(data, start, o).broken
  }

  /** What each code says about the end record. */
  ghost predicate EndFault(data: Bytes, o: nat, maxEntries: nat, code: Code)
    requires EndRecordAt(data, o)
  {
    match code
    case Unsupported => !Classic(data, o)
    case LimitExceeded => TooMany(data, o, maxEntries)
    case Invalid => Damaged(data, o)
    case _ => false
  }

  /** What it says about the file. */
  ghost predicate CountFault(data: Bytes, maxEntries: nat, code: Code) {
    exists o: nat :: Chosen(data, o) && EndFault(data, o, maxEntries, code)
  }

  /** A bounded file has no such fault. */
  lemma BoundedFaultless(data: Bytes, maxEntries: nat, code: Code)
    requires CountBounded(data, maxEntries)
    ensures !CountFault(data, maxEntries, code)
  {
    hide WalkHeaders, EndRecordAt, HasZip64Locator;
    forall o: nat | Chosen(data, o)
      ensures !EndFault(data, o, maxEntries, code)
    {
      assert Bounded(data, o, maxEntries);
    }
  }

  // ----- A printed archive -----

  /** An end-of-central-directory record, field by field. Section 4.3.16 of the ZIP application note. */
  datatype EndRecord = EndRecord(
    disk: nat, startDisk: nat, entriesHere: nat, entries: nat, size: nat, offset: nat, comment: Bytes
  )

  ghost predicate EndFits(r: EndRecord) {
    && r.disk < 0x1_0000 && r.startDisk < 0x1_0000 && r.entriesHere < 0x1_0000 && r.entries < 0x1_0000
    && r.size < 0x1_0000_0000 && r.offset < 0x1_0000_0000 && |r.comment| < 0x1_0000
  }

  function EncodeEnd(r: EndRecord): Bytes
    requires EndFits(r)
  {
    [0x50, 0x4B, 5, 6] + PutLe16(r.disk) + PutLe16(r.startDisk) + PutLe16(r.entriesHere) + PutLe16(r.entries)
    + PutLe32(r.size) + PutLe32(r.offset) + PutLe16(|r.comment|) + r.comment
  }

  /** Where the printer puts what the search reads. */
  lemma EndLayout(r: EndRecord)
    requires EndFits(r)
    ensures var e := EncodeEnd(r);
      && |e| == EOCD_SIZE + |r.comment| && e[..4] == EOCD_SIGNATURE
      && e[4..6] == PutLe16(r.disk) && e[6..8] == PutLe16(r.startDisk) && e[10..12] == PutLe16(r.entries)
      && e[12..16] == PutLe32(r.size) && e[16..20] == PutLe32(r.offset) && e[20..22] == PutLe16(|r.comment|)
  {
  }

  lemma EndFields(data: Bytes, o: nat, r: EndRecord)
    requires EndFits(r) && o <= |data| && data[o..] == EncodeEnd(r)
    ensures EndRecordAt(data, o) && o + EOCD_SIZE + Le16(data[o + 20..o + 22]) == |data|
    ensures DeclaredEntries(data, o) == r.entries && DirectorySize(data, o) == r.size
    ensures DirectoryOffset(data, o) == r.offset
    ensures Le16(data[o + 4..o + 6]) == r.disk && Le16(data[o + 6..o + 8]) == r.startDisk
  {
    var e := EncodeEnd(r);
    EndLayout(r);
    hide EncodeEnd, PutLe16, PutLe32, Le16, Le32;
    assert data[o..o + |e|] == e;
    SliceOfSlice(data, o, |e|, 0, 4);
    SliceOfSlice(data, o, |e|, 4, 6);
    SliceOfSlice(data, o, |e|, 6, 8);
    SliceOfSlice(data, o, |e|, 10, 12);
    SliceOfSlice(data, o, |e|, 12, 16);
    SliceOfSlice(data, o, |e|, 16, 20);
    SliceOfSlice(data, o, |e|, 20, 22);
  }

  /** One disk, no field that points to a ZIP64 record, and no locator of one in front. */
  ghost predicate PlainEnd(data: Bytes, o: nat, r: EndRecord)
    requires o <= |data|
  {
    && r.disk == 0 && r.startDisk == 0
    && r.entries != 0xFFFF && r.size != 0xFFFF_FFFF && r.offset != 0xFFFF_FFFF
    && !(o >= 20 && data[o - 20..o - 16] == [0x50, 0x4B, 6, 7])
  }

  lemma LocatorBytes(data: Bytes, o: nat)
    requires o <= |data|
    ensures HasZip64Locator(data, o) <==> o >= 20 && data[o - 20..o - 16] == [0x50, 0x4B, 6, 7]
  {
    if o >= 20 {
      LocatorSignature(data[o - 20..o - 16]);
    }
  }

  lemma LocatorSignature(s: Bytes)
    requires |s| == 4
    ensures Le32(s) == LOCATOR_SIGNATURE <==> s == [0x50, 0x4B, 6, 7]
  {
    assert s == [s[0], s[1], s[2], s[3]];
  }

  /** Nothing behind it can be mistaken for a later end record. */
  ghost predicate LastEnd(data: Bytes, o: nat) {
    forall p: nat :: o < p ==> !EndRecordAt(data, p)
  }

  /**
   Acceptance of an archive that has been printed: some bytes, from `start` on the headers of
   the directory, and at `o` an end record that tells their size. It depends on the declared
   and the true number of headers, and on the walk from the recorded offset when that lies
   before the directory.
   */
  lemma PrintedBounded(data: Bytes, start: nat, o: nat, hs: seq<Header>, r: EndRecord, maxEntries: nat)
    requires (forall i :: 0 <= i < |hs| ==> HeaderFits(hs[i])) && EndFits(r) && r.size == |EncodeHeaders(hs)|
    requires start <= o <= |data| && data[start..o] == EncodeHeaders(hs) && data[o..] == EncodeEnd(r)
    requires LastEnd(data, o)
    ensures CountBounded(data, maxEntries) <==>
      && PlainEnd(data, o, r) && r.entries <= maxEntries && |hs| <= maxEntries
      && (r.offset < start ==> WalkBounded(data, r.offset, o, maxEntries))
  {
    hide *;
    EndFields(data, o, r);
    WindowIsWide(data, o);
    OnlyChosen(data, o, maxEntries);
    WalkPrinted(data, start, o, hs);
    assert |data[start..o]| == o - start;
    FieldsBounded(data, start, o, |hs|, r, maxEntries);
  }

  /** What is promised of the end record, in terms of what was printed. */
  lemma FieldsBounded(data: Bytes, start: nat, o: nat, n: nat, r: EndRecord, maxEntries: nat)
    requires EndRecordAt(data, o) && start <= o && r.size == o - start
    requires DeclaredEntries(data, o) == r.entries && DirectorySize(data, o) == r.size
    requires DirectoryOffset(data, o) == r.offset
    requires Le16(data[o + 4..o + 6]) == r.disk && Le16(data[o + 6..o + 8]) == r.startDisk
    requires WalkHeaders(data, start, o) == Walked(n, false)
    ensures Bounded(data, o, maxEntries) <==>
      && PlainEnd(data, o, r) && r.entries <= maxEntries && n <= maxEntries
      && (r.offset < start ==> WalkBounded(data, r.offset, o, maxEntries))
  {
    LocatorBytes(data, o);
    hide WalkHeaders, HasZip64Locator, Le16, Le32, EndRecordAt, DeclaredEntries, DirectorySize, DirectoryOffset;
  }

  lemma OnlyChosen(data: Bytes, o: nat, maxEntries: nat)
    requires EndRecordAt(data, o) && WindowStart(data) <= o && LastEnd(data, o)
    ensures CountBounded(data, maxEntries) <==> Bounded(data, o, maxEntries)
  {
    hide EndRecordAt, WindowStart, Bounded;
    assert Chosen(data, o);
  }

  lemma WindowIsWide(data: Bytes, o: nat)
    requires EndRecordAt(data, o) && o + EOCD_SIZE + Le16(data[o + 20..o + 22]) == |data|
    ensures WindowStart(data) <= o
  {
  }

  /** `checkEntryCount` accepts a file exactly when its last end record, if any, is bounded. */
  method CheckEntryCount(data: Bytes, maxEntries: nat) returns (err: Option<Code>)
    ensures err.None? <==> CountBounded(data, maxEntries)
    ensures err.Some? ==> err.value in {Unsupported, LimitExceeded, Invalid}
    ensures err.Some? ==> CountFault(data, maxEntries, err.value)
  {
    var base := WindowStart(data);
    if |data| - base < EOCD_SIZE {
      return None;
    }
    var o := |data| - EOCD_SIZE;
    while o >= base
      invariant base - 1 <= o <= |data| - EOCD_SIZE
      invariant forall p: nat :: o < p ==> !EndRecordAt(data, p)
    {
      if data[o..o + 4] != EOCD_SIGNATURE {
        o := o - 1;
        continue;
      }
      if o + EOCD_SIZE + Le16(data[o + 20..o + 22]) > |data| {
        o := o - 1;
        continue;
      }
      assert Chosen(data, o);
      err := JudgeEndRecord(data, o, maxEntries);
      return;
    }
    err := None;
  }

  method JudgeEndRecord(data: Bytes, o: nat, maxEntries: nat) returns (err: Option<Code>)
    requires EndRecordAt(data, o)
    ensures err.None? <==> Bounded(data, o, maxEntries)
    ensures err.Some? ==> err.value in {Unsupported, LimitExceeded, Invalid}
    ensures err.Some? ==> EndFault(data, o, maxEntries, err.value)
  {
    if Le16(data[o + 4..o + 6]) != 0 || Le16(data[o + 6..o + 8]) != 0 {
      return Some(Unsupported);
    }
    var declared, size, offset := DeclaredEntries(data, o), DirectorySize(data, o), DirectoryOffset(data, o);
    if declared == 0xFFFF || size == 0xFFFF_FFFF || offset == 0xFFFF_FFFF || HasZip64Locator(data, o) {
      return Some(Unsupported);
    }
    if declared > maxEntries {
      return Some(LimitExceeded);
    }
    var start := o - size;
    var baseOffset := start - offset;
    if start < 0 {
      return Some(Invalid);
    }
    assert Candidate(data, o, start);
    var entries := CountCentralHeaders(data, start, o, maxEntries);
    if entries.Err? {
      return Some(entries.error);
    }
    if entries.value > maxEntries {
      return Some(LimitExceeded);
    }
    if baseOffset > 0 && offset != start {
      assert Candidate(data, o, offset);
      entries := CountCentralHeaders(data, offset, o, maxEntries);
      if entries.Err? {
        return Some(entries.error);
      }
      if entries.value > maxEntries {
        return Some(LimitExceeded);
      }
    }
    err := None;
  }

  /** The window is large enough: an end record with any legal comment up to the end of the file lies inside it. */
  lemma WindowCovers(data: Bytes, o: nat)
    requires EndRecordAt(data, o) && o + EOCD_SIZE + Le16(data[o + 20..o + 22]) == |data|
    ensures WindowStart(data) <= o
    ensures exists p: nat :: Chosen(data, p) && o <= p
  {
    HighestRecord(data, o, |data| - o);
  }

  lemma {:induction false} HighestRecord(data: Bytes, o: nat, steps: nat)
    requires EndRecordAt(data, o) && WindowStart(data) <= o && o + steps == |data|
    ensures exists p: nat :: Chosen(data, p) && o <= p
    decreases steps
  {
    if p: nat :| o < p && EndRecordAt(data, p) {
      HighestRecord(data, p, |data| - p);
    } else {
      assert Chosen(data, o);
    }
  }
}
