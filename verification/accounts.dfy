/**
 Exactly one record for every upload and for every member of an expanded archive
 (the loops of internal/app/scan.go).
 */
module Accounts {
  import opened Basics
  import opened PosixPath
  import opened ZipNames
  import opened Preflights
  import opened Records

  // ----- What a record is about -----

  /** Everything a record is opened with, before anything is decided. */
  datatype Subject = Subject(
    origin: Origin, parent: Option<string>, attachment: string, source: string, size: nat, sha: Digest
  )

  function About(r: Record): Subject {
    Subject(r.origin, r.parent, r.attachment, r.source, r.size, r.sha)
  }

  /** What the record of a member takes from that of its archive. */
  datatype Envelope = Envelope(id: string, attachment: string, source: string)

  function EnvelopeOf(r: Record): Envelope {
    Envelope(r.id, r.attachment, r.source)
  }

  /** What it takes from the member itself: where it was found, and what is in it. */
  datatype Content = Content(source: Path, size: nat, sha: Digest)

  function ContentOf(lib: Library, f: Member): Content {
    Content(SourceOf(lib, f), |f.body.data|, lib.sha(f.body.data))
  }

  function Inside(e: Envelope, c: Content): Subject {
    Subject(FromArchive, Some(e.id), e.attachment, e.source + "!" + Join(c.source), c.size, c.sha)
  }

  /** The files among the members of an archive, in order. */
  function FilesIn(members: seq<Member>): seq<Member> {
    if members == [] then []
    else FilesIn(members[..|members| - 1]) + if IsDir(members[|members| - 1]) then [] else [members[|members| - 1]]
  }

  lemma {:induction false} FilesInCount(members: seq<Member>)
    ensures |FilesIn(members)| == CountFiles(members)
  {
    if members != [] {
      FilesInCount(members[..|members| - 1]);
    }
  }

  lemma {:induction false} FilesInMember(members: seq<Member>, f: Member)
    ensures f in FilesIn(members) <==> f in members && !IsDir(f)
  {
    if members != [] {
      var front, last := members[..|members| - 1], members[|members| - 1];
      assert members == front + [last];
      FilesInMember(front, f);
    }
  }

  function ContentsOf(lib: Library, members: seq<Member>): seq<Content> {
    Map(f => ContentOf(lib, f), FilesIn(members))
  }

  /** The contents for which the record of an upload obliges the scan to enter further records. */
  function Obligations(lib: Library, r: Record, b: Bytes): seq<Content> {
    if r.origin.Upload? && IsOut(r) && r.action.Expanded? && lib.parse(b).Some?
    then ContentsOf(lib, lib.parse(b).value)
    else []
  }

  /** The records are about the contents, each about one and each content in one. */
  ghost predicate EachOnce(e: Envelope, contents: seq<Content>, records: seq<Record>) {
    multiset(Map(About, records)) == multiset(Map(c => Inside(e, c), contents))
  }

  lemma EachOnceCount(e: Envelope, contents: seq<Content>, records: seq<Record>)
    requires EachOnce(e, contents, records)
    ensures |records| == |contents|
  {
    SameElements(Map(About, records), Map(c => Inside(e, c), contents));
  }

  lemma EachOnceMembers(e: Envelope, contents: seq<Content>, records: seq<Record>)
    requires EachOnce(e, contents, records)
    ensures forall i :: 0 <= i < |records| ==> records[i].origin.FromArchive? && records[i].parent == Some(e.id)
  {
    var subjects, expected := Map(About, records), Map(c => Inside(e, c), contents);
    SameElements(subjects, expected);
    forall i | 0 <= i < |records|
      ensures records[i].origin.FromArchive? && records[i].parent == Some(e.id)
    {
      assert subjects[i] in expected;
      var j :| 0 <= j < |expected| && expected[j] == subjects[i];
      assert subjects[i] == About(records[i]);
    }
  }

  lemma EachOnceRearranged(
    lib: Library, e: Envelope, contents: seq<Content>, others: seq<Content>, records: seq<Record>
  )
    requires EachOnce(e, contents, records) && multiset(contents) == multiset(others)
    ensures EachOnce(e, others, records)
  {
    MapRearranged(c => Inside(e, c), contents, others);
  }

  // ----- Counting -----

  /** What one upload adds: its own record, and those of its members if it has been expanded. */
  ghost predicate OneUpload(
    lib: Library, front: seq<Record>, frontBytes: seq<Bytes>, files: seq<Record>, bytes: seq<Bytes>, s: Subject
  ) {
    && front < files && frontBytes <= bytes && |frontBytes| == |front| && |bytes| == |files|
    && s.origin.Upload? && BlockAt(lib, s, files, bytes, |front|, |files|)
  }

  /** The records from one position up to another are about one upload and its members. */
  ghost predicate BlockAt(lib: Library, s: Subject, files: seq<Record>, bytes: seq<Bytes>, from: nat, to: nat)
    requires |bytes| == |files|
  {
    && from < to <= |files| && About(files[from]) == s
    && EachOnce(EnvelopeOf(files[from]), Obligations(lib, files[from], bytes[from]), files[from + 1..to])
  }

  lemma UploadCounted(
    lib: Library, front: seq<Record>, frontBytes: seq<Bytes>, files: seq<Record>, bytes: seq<Bytes>, s: Subject
  )
    requires OneUpload(lib, front, frontBytes, files, bytes, s)
    ensures CountUploads(files) == CountUploads(front) + 1
  {
    hide EachOnce, Obligations;
    BlockUploads(lib, s, files, bytes, |front|, |files|);
    assert files[..|files|] == files && files[..|front|] == front;
  }

  lemma {:induction false} MembersNotCounted(files: seq<Record>, n: nat)
    requires n <= |files| && forall i :: 0 <= i < |files[n..]| ==> files[n..][i].origin.FromArchive?
    ensures CountUploads(files) == CountUploads(files[..n])
    decreases |files|
  {
    if n < |files| {
      var front := files[..|files| - 1];
      assert files[n..][|files| - 1 - n].origin.FromArchive?;
      assert forall i :: 0 <= i < |front[n..]| ==> front[n..][i] == files[n..][i];
      assert front[..n] == files[..n];
      MembersNotCounted(front, n);
    } else {
      assert files[..n] == files;
    }
  }

  // ----- A whole batch -----

  /** Where the records of one upload end: at the next, or at the very end. */
  function EndOf(heads: seq<nat>, k: nat, total: nat): nat
    requires k < |heads|
  {
    if k + 1 < |heads| then heads[k + 1] else total
  }

  /**
   The records fall into one block for every upload, in order; `heads` says where
   the blocks begin.
   */
  ghost predicate Blocks(lib: Library, subjects: seq<Subject>, files: seq<Record>, bytes: seq<Bytes>, heads: seq<nat>) {
    && |bytes| == |files| && |heads| == |subjects|
    && (if heads == [] then files == [] else heads[0] == 0)
    && forall k {:trigger subjects[k]} :: 0 <= k < |heads| ==>
         BlockAt(lib, subjects[k], files, bytes, heads[k], EndOf(heads, k, |files|))
  }

  /** Every upload, and every member of every expanded one, is decided exactly once, and nothing else is. */
  ghost predicate Decided(lib: Library, subjects: seq<Subject>, files: seq<Record>, bytes: seq<Bytes>) {
    exists heads :: Blocks(lib, subjects, files, bytes, heads)
  }

  lemma NothingDecided(lib: Library)
    ensures Decided(lib, [], [], [])
  {
    assert Blocks(lib, [], [], [], []);
  }

  lemma BlockKept(
    lib: Library, s: Subject, front: seq<Record>, frontBytes: seq<Bytes>, files: seq<Record>, bytes: seq<Bytes>,
    from: nat, to: nat
  )
    requires front <= files && frontBytes <= bytes && |frontBytes| == |front| && |bytes| == |files|
    requires BlockAt(lib, s, front, frontBytes, from, to)
    ensures BlockAt(lib, s, files, bytes, from, to)
  {
    assert files[from + 1..to] == front[from + 1..to];
  }

  /** One more upload. */
  lemma DecidedSnoc(
    lib: Library, subjects: seq<Subject>, front: seq<Record>, frontBytes: seq<Bytes>, files: seq<Record>,
    bytes: seq<Bytes>, s: Subject
  )
    requires Decided(lib, subjects, front, frontBytes) && OneUpload(lib, front, frontBytes, files, bytes, s)
    ensures Decided(lib, subjects + [s], files, bytes)
  {
    hide BlockAt;
    var heads: seq<nat> :| Blocks(lib, subjects, front, frontBytes, heads);
    BlocksSnoc(lib, subjects, front, frontBytes, files, bytes, s, heads);
    hide Blocks;
    assert Blocks(lib, subjects + [s], files, bytes, heads + [|front|]);
  }

  lemma BlocksSnoc(
    lib: Library, subjects: seq<Subject>, front: seq<Record>, frontBytes: seq<Bytes>, files: seq<Record>,
    bytes: seq<Bytes>,
    s: Subject, heads: seq<nat>
  )
    requires Blocks(lib, subjects, front, frontBytes, heads) && OneUpload(lib, front, frontBytes, files, bytes, s)
    ensures Blocks(lib, subjects + [s], files, bytes, heads + [|front|])
  {
    hide BlockAt;
    var more := heads + [|front|];
    forall k {:trigger more[k]} | 0 <= k < |more|
      ensures BlockAt(lib, (subjects + [s])[k], files, bytes, more[k], EndOf(more, k, |files|))
    {
      if k < |heads| {
        assert BlockAt(lib, subjects[k], front, frontBytes, heads[k], EndOf(heads, k, |front|));
        BlockKept(lib, subjects[k], front, frontBytes, files, bytes, heads[k], EndOf(heads, k, |front|));
      }
    }
  }

  /** The blocks follow one another without a gap. */
  lemma BlockBounds(lib: Library, subjects: seq<Subject>, files: seq<Record>, bytes: seq<Bytes>, heads: seq<nat>)
    requires Blocks(lib, subjects, files, bytes, heads)
    ensures forall k {:trigger EndOf(heads, k, |files|)} :: 0 <= k < |heads| ==>
      heads[k] < EndOf(heads, k, |files|) <= |files|
  {
    forall k {:trigger EndOf(heads, k, |files|)} | 0 <= k < |heads|
      ensures heads[k] < EndOf(heads, k, |files|) <= |files|
    {
      NthBlock(lib, subjects, files, bytes, heads, k);
    }
  }

  lemma NthBlock(lib: Library, subjects: seq<Subject>, files: seq<Record>, bytes: seq<Bytes>, heads: seq<nat>, k: nat)
    requires Blocks(lib, subjects, files, bytes, heads) && k < |heads|
    ensures |bytes| == |files| && |heads| == |subjects|
    ensures BlockAt(lib, subjects[k], files, bytes, heads[k], EndOf(heads, k, |files|))
  {
    hide BlockAt;
  }

  lemma {:induction false} HeadsIncrease(heads: seq<nat>, total: nat, k: nat, l: nat)
    requires forall n {:trigger EndOf(heads, n, total)} :: 0 <= n < |heads| ==> heads[n] < EndOf(heads, n, total)
    requires k < l < |heads|
    ensures EndOf(heads, k, total) <= heads[l]
  {
    if k + 1 < l {
      HeadsIncrease(heads, total, k, l - 1);
      assert heads[l - 1] < EndOf(heads, l - 1, total);
      assert heads[k] < EndOf(heads, k, total);
    }
  }

  /** Every record belongs to a block. */
  lemma {:induction false} Locate(heads: seq<nat>, total: nat, j: nat) returns (k: nat)
    requires heads != [] && heads[0] == 0 && j < total
    requires forall n {:trigger EndOf(heads, n, total)} :: 0 <= n < |heads| ==> heads[n] < EndOf(heads, n, total)
    ensures k < |heads| && heads[k] <= j < EndOf(heads, k, total)
  {
    if heads[|heads| - 1] <= j {
      k := |heads| - 1;
    } else {
      var front := heads[..|heads| - 1];
      forall n | 0 <= n < |front|
        ensures front[n] < EndOf(front, n, heads[|front|])
      {
        assert EndOf(front, n, heads[|front|]) == EndOf(heads, n, total);
      }
      k := Locate(front, heads[|front|], j);
      assert EndOf(front, k, heads[|front|]) == EndOf(heads, k, total);
    }
  }

  /** A record inside a block is about a member of what its first record is about. */
  lemma InBlock(
    lib: Library, subjects: seq<Subject>, files: seq<Record>, bytes: seq<Bytes>, heads: seq<nat>, k: nat, j: nat
  )
    requires Blocks(lib, subjects, files, bytes, heads) && k < |heads|
    requires heads[k] < j < EndOf(heads, k, |files|) <= |files|
    ensures files[j].origin.FromArchive? && files[j].parent == Some(files[heads[k]].id)
  {
    hide Blocks, BlockAt;
    NthBlock(lib, subjects, files, bytes, heads, k);
    InBlockAt(lib, subjects[k], files, bytes, heads[k], EndOf(heads, k, |files|), j);
  }

  lemma InBlockAt(lib: Library, s: Subject, files: seq<Record>, bytes: seq<Bytes>, from: nat, to: nat, j: nat)
    requires |bytes| == |files| && BlockAt(lib, s, files, bytes, from, to) && from < j < to
    ensures files[j].origin.FromArchive? && files[j].parent == Some(files[from].id)
  {
    hide Obligations, EachOnce;
    EachOnceMembers(EnvelopeOf(files[from]), Obligations(lib, files[from], bytes[from]), files[from + 1..to]);
    assert files[from + 1..to][j - from - 1] == files[j];
  }

  /** The record of each upload comes after those of exactly the uploads before it. */
  lemma {:induction false} UploadsBefore(
    lib: Library, subjects: seq<Subject>, files: seq<Record>, bytes: seq<Bytes>, heads: seq<nat>, k: nat
  )
    requires Blocks(lib, subjects, files, bytes, heads) && k < |heads|
    requires forall s :: s in subjects ==> s.origin.Upload?
    ensures heads[k] < |files| && CountUploads(files[..heads[k]]) == k
  {
    BlockBounds(lib, subjects, files, bytes, heads);
    assert heads[k] < EndOf(heads, k, |files|);
    if k == 0 {
      assert files[..0] == [];
    } else {
      UploadsBefore(lib, subjects, files, bytes, heads, k - 1);
      NthBlock(lib, subjects, files, bytes, heads, k - 1);
      hide Blocks;
      BlockUploads(lib, subjects[k - 1], files, bytes, heads[k - 1], heads[k]);
    }
  }

  lemma BlockUploads(lib: Library, s: Subject, files: seq<Record>, bytes: seq<Bytes>, from: nat, to: nat)
    requires |bytes| == |files| && BlockAt(lib, s, files, bytes, from, to) && s.origin.Upload?
    ensures from < to <= |files| && CountUploads(files[..to]) == CountUploads(files[..from]) + 1
  {
    hide EachOnce, Obligations, CountUploads;
    var front := files[..to];
    forall i {:trigger front[from + 1..][i]} | 0 <= i < |front[from + 1..]|
      ensures front[from + 1..][i].origin.FromArchive?
    {
      InBlockAt(lib, s, files, bytes, from, to, from + 1 + i);
    }
    MembersNotCounted(front, from + 1);
    OneMore(files, from, to);
  }

  lemma OneMore(files: seq<Record>, from: nat, to: nat)
    requires from < to <= |files| && files[from].origin.Upload?
    ensures CountUploads(files[..to][..from + 1]) == CountUploads(files[..from]) + 1
  {
    var more := files[..to][..from + 1];
    assert more[..|more| - 1] == files[..from] && more[|more| - 1] == files[from];
  }

  lemma ChildInBlock(
    lib: Library, subjects: seq<Subject>, files: seq<Record>, bytes: seq<Bytes>, heads: seq<nat>, k: nat, j: nat
  )
    requires Blocks(lib, subjects, files, bytes, heads) && k < |heads| && j < |files|
    requires forall s :: s in subjects ==> s.origin.Upload? && s.parent.None?
    requires forall m, n :: 0 <= m < n < |files| ==> files[m].id != files[n].id
    ensures heads[k] < EndOf(heads, k, |files|) <= |files|
    ensures files[j].parent == Some(files[heads[k]].id) <==> heads[k] < j < EndOf(heads, k, |files|)
  {
    BlockBounds(lib, subjects, files, bytes, heads);
    var l := Locate(heads, |files|, j);
    if j == heads[l] {
      NthBlock(lib, subjects, files, bytes, heads, l);
      assert About(files[j]) == subjects[l] && subjects[l] in subjects;
    } else {
      InBlock(lib, subjects, files, bytes, heads, l, j);
    }
    if k < l {
      HeadsIncrease(heads, |files|, k, l);
    } else if l < k {
      HeadsIncrease(heads, |files|, l, k);
    }
  }

  /** The records that a record obliges the scan to enter. */
  function Expected(lib: Library, files: seq<Record>, bytes: seq<Bytes>): nat
    requires |bytes| == |files|
  {
    if files == [] then 0
    else
      var n := |files| - 1;
      Expected(lib, files[..n], bytes[..n]) + |Obligations(lib, files[n], bytes[n])|
  }

  /** There are as many records as uploads and files in expanded archives. */
  lemma {:induction false} RecordsCounted(
    lib: Library, subjects: seq<Subject>, files: seq<Record>, bytes: seq<Bytes>, heads: seq<nat>
  )
    requires Blocks(lib, subjects, files, bytes, heads)
    ensures |files| == |subjects| + Expected(lib, files, bytes)
    decreases |subjects|
  {
    if heads != [] {
      var last := |heads| - 1;
      NthBlock(lib, subjects, files, bytes, heads, last);
      FrontBlocks(lib, subjects, files, bytes, heads);
      RecordsCounted(lib, subjects[..last], files[..heads[last]], bytes[..heads[last]], heads[..last]);
      BlockCounted(lib, subjects[last], files, bytes, heads[last]);
    }
  }

  lemma BlockCounted(lib: Library, s: Subject, files: seq<Record>, bytes: seq<Bytes>, from: nat)
    requires |bytes| == |files| && BlockAt(lib, s, files, bytes, from, |files|)
    ensures Expected(lib, files, bytes) + 1 == Expected(lib, files[..from], bytes[..from]) + |files| - from
  {
    var head, rest := files[from], files[from + 1..];
    assert files[from + 1..|files|] == rest;
    EachOnceCount(EnvelopeOf(head), Obligations(lib, head, bytes[from]), rest);
    EachOnceMembers(EnvelopeOf(head), Obligations(lib, head, bytes[from]), rest);
    hide EachOnce, Obligations, BlockAt;
    assert files[..from + 1][..from] == files[..from] && bytes[..from + 1][..from] == bytes[..from];
    MembersOblige(lib, files, bytes, from + 1);
  }

  lemma FrontBlocks(lib: Library, subjects: seq<Subject>, files: seq<Record>, bytes: seq<Bytes>, heads: seq<nat>)
    requires Blocks(lib, subjects, files, bytes, heads) && heads != []
    ensures var last := |heads| - 1;
      heads[last] < |files| && Blocks(lib, subjects[..last], files[..heads[last]], bytes[..heads[last]], heads[..last])
  {
    var last := |heads| - 1;
    var from, front := heads[last], heads[..last];
    BlockBounds(lib, subjects, files, bytes, heads);
    assert heads[last] < EndOf(heads, last, |files|);
    hide BlockAt;
    forall k {:trigger front[k]} | 0 <= k < last
      ensures BlockAt(lib, subjects[..last][k], files[..from], bytes[..from], front[k], EndOf(front, k, from))
    {
      if k + 1 < last {
        HeadsIncrease(heads, |files|, k, last);
      }
      assert EndOf(front, k, from) == EndOf(heads, k, |files|) && heads[k] < EndOf(heads, k, |files|);
      BlockInFront(lib, subjects[k], files, bytes, heads[k], EndOf(heads, k, |files|), from);
    }
  }

  lemma BlockInFront(lib: Library, s: Subject, files: seq<Record>, bytes: seq<Bytes>, from: nat, to: nat, n: nat)
    requires |bytes| == |files| && BlockAt(lib, s, files, bytes, from, to) && to <= n <= |files|
    ensures BlockAt(lib, s, files[..n], bytes[..n], from, to)
  {
    assert files[..n][from + 1..to] == files[from + 1..to];
  }

  lemma {:induction false} MembersOblige(lib: Library, files: seq<Record>, bytes: seq<Bytes>, n: nat)
    requires |bytes| == |files| && n <= |files|
    requires forall i :: 0 <= i < |files[n..]| ==> files[n..][i].origin.FromArchive?
    ensures Expected(lib, files, bytes) == Expected(lib, files[..n], bytes[..n])
    decreases |files|
  {
    hide ContentsOf;
    if n < |files| {
      var last := |files| - 1;
      var front := files[..last];
      assert files[last] == files[n..][last - n];
      assert Obligations(lib, files[last], bytes[last]) == [];
      assert forall i :: 0 <= i < |front[n..]| ==> front[n..][i] == files[n..][i];
      assert front[..n] == files[..n] && bytes[..last][..n] == bytes[..n];
      MembersOblige(lib, front, bytes[..last], n);
    } else {
      assert files[..n] == files && bytes[..n] == bytes;
    }
  }
}
