/** The INSTREAM exchange with clamd: internal/malware/clamd.go. */
module Clamd {
  import opened Basics
  import opened Streams

  const CHUNK_SIZE := 32 * 1024
  const MAX_RESPONSE := 64 * 1024
  const MAX_EMPTY_READS := 100

  // ----- The wire format -----

  /** A length in network byte order. */
  function PutBe32(n: nat): (s: Bytes)
    requires n < 0x1_0000_0000
    ensures |s| == 4 && Be32(s) == n
  {
    var a := n / 0x100;
    var b := a / 0x100;
    [b / 0x100, b % 0x100, a % 0x100, n % 0x100]
  }

  function Be32(s: Bytes): nat
    requires |s| == 4
  {
    0x100_0000 * (s[0] as int) + 0x1_0000 * (s[1] as int) + 0x100 * (s[2] as int) + s[3] as int
  }

  /** The most significant byte comes first. */
  lemma NetworkOrder(n: nat, m: nat)
    requires n < m < 0x1_0000_0000
    ensures exists i :: 0 <= i < 4 && PutBe32(n)[..i] == PutBe32(m)[..i] && PutBe32(n)[i] < PutBe32(m)[i]
  {
    var a, b := PutBe32(n), PutBe32(m);
    var i := if a[0] != b[0] then 0 else if a[1] != b[1] then 1 else if a[2] != b[2] then 2 else 3;
    assert Be32(a) == n && Be32(b) == m;
    assert a[..i] == b[..i] && a[i] < b[i];
  }

  /** "zINSTREAM" and a NUL. */
  const INSTREAM: Bytes := [0x7A, 0x49, 0x4E, 0x53, 0x54, 0x52, 0x45, 0x41, 0x4D, 0]

  const END_OF_STREAM: Bytes := [0, 0, 0, 0]

  function Frame(chunk: Bytes): Bytes
    requires |chunk| <= CHUNK_SIZE
  {
    PutBe32(|chunk|) + chunk
  }

  /** Chunks that may be sent: none empty, none above the buffer size. */
  ghost predicate Sendable(chunks: seq<Bytes>) {
    forall i :: 0 <= i < |chunks| ==> 0 < |chunks[i]| <= 32 * 1024
  }

  function Frames(chunks: seq<Bytes>): Bytes
    requires Sendable(chunks)
  {
    if chunks == [] then [] else Frame(chunks[0]) + Frames(chunks[1..])
  }

  /** Everything one complete INSTREAM request puts on the wire. */
  function Request(chunks: seq<Bytes>): Bytes
    requires Sendable(chunks)
  {
    INSTREAM + Frames(chunks) + END_OF_STREAM
  }

  /** What the daemon makes of it: frames up to the empty one; nothing if they break off. */
  function Unframe(s: Bytes): Option<Bytes>
    decreases |s|
  {
    if |s| < 4 then None
    else
      var size, rest := Be32(s[..4]), s[4..];
      if size == 0 then Some([])
      else if |rest| < size then None
      else
        var more := Unframe(rest[size..]);
        if more.None? then None else Some(rest[..size] + more.value)
  }

  /** Bytes as text; what matters of it is ASCII. */
  function Text(s: Bytes): (t: string)
    ensures |t| == |s|
  {
    seq(|s|, i requires 0 <= i < |s| => s[i] as char)
  }

  /** It listens only to that command. */
  function Received(s: Bytes): Option<Bytes> {
    if |s| < 10 || Text(s[..9]) != "zINSTREAM" || s[9] != 0 then None else Unframe(s[10..])
  }

  lemma CommandHeard(s: Bytes)
    requires INSTREAM <= s
    ensures Received(s) == Unframe(s[|INSTREAM|..])
  {
    assert s[..10] == INSTREAM && s[..9] == INSTREAM[..9] && s[9] == INSTREAM[9];
    assert Text(INSTREAM[..9]) == "zINSTREAM";
  }

  lemma UnframeFrame(chunk: Bytes, rest: Bytes)
    requires 0 < |chunk| <= CHUNK_SIZE
    ensures Unframe(Frame(chunk) + rest) == if Unframe(rest).None? then None else Some(chunk + Unframe(rest).value)
  {
    var s := Frame(chunk) + rest;
    assert s[..4] == PutBe32(|chunk|);
    assert s[4..] == chunk + rest;
    assert (chunk + rest)[|chunk|..] == rest && (chunk + rest)[..|chunk|] == chunk;
  }

  lemma {:induction false} UnframeFrames(chunks: seq<Bytes>, rest: Bytes)
    requires Sendable(chunks)
    ensures Unframe(Frames(chunks) + rest) ==
      if Unframe(rest).None? then None else Some(Flatten(chunks) + Unframe(rest).value)
  {
    hide Unframe, Frame;
    if chunks == [] {
      assert Frames(chunks) + rest == rest;
      assert Unframe(rest).Some? ==> [] + Unframe(rest).value == Unframe(rest).value;
    } else {
      var more := Frames(chunks[1..]) + rest;
      assert Frames(chunks) + rest == Frame(chunks[0]) + more;
      UnframeFrame(chunks[0], more);
      UnframeFrames(chunks[1..], rest);
      if Unframe(rest).Some? {
        assert chunks[0] + (Flatten(chunks[1..]) + Unframe(rest).value) == Flatten(chunks) + Unframe(rest).value;
      }
    }
  }

  /** The framing round trip: whatever the chunks, the daemon receives their bytes. */
  lemma RoundTrip(chunks: seq<Bytes>)
    requires Sendable(chunks)
    ensures Received(Request(chunks)) == Some(Flatten(chunks))
  {
    hide Frames, Received, Text;
    var s := Request(chunks);
    CommandHeard(s);
    assert s[|INSTREAM|..] == Frames(chunks) + END_OF_STREAM;
    assert END_OF_STREAM[..4] == END_OF_STREAM;
    assert Unframe(END_OF_STREAM) == Some([]);
    UnframeFrames(chunks, END_OF_STREAM);
    assert Flatten(chunks) + [] == Flatten(chunks);
  }

  lemma {:induction false} FramesSnoc(chunks: seq<Bytes>, last: Bytes)
    requires Sendable(chunks) && 0 < |last| <= CHUNK_SIZE
    ensures Sendable(chunks + [last]) && Frames(chunks + [last]) == Frames(chunks) + Frame(last)
  {
    hide Frame;
    if chunks == [] {
      assert chunks + [last] == [last] && [last][1..] == [];
      assert Frames([last]) == Frame(last) + Frames([]);
    } else {
      assert (chunks + [last])[1..] == chunks[1..] + [last];
      FramesSnoc(chunks[1..], last);
    }
  }

  /** A request that breaks off, anywhere, is not taken for a complete one. */
  lemma {:induction false} BrokenOff(chunks: seq<Bytes>, s: Bytes)
    requires Sendable(chunks) && s < Frames(chunks) + END_OF_STREAM
    ensures Unframe(s).None?
    decreases |chunks|
  {
    if chunks == [] {
      assert |s| < 4;
    } else {
      BreaksInFront(chunks[0], Frames(chunks[1..]) + END_OF_STREAM, s);
      var first := Frame(chunks[0]);
      assert Frames(chunks) + END_OF_STREAM == first + (Frames(chunks[1..]) + END_OF_STREAM);
      hide Unframe, Frame, Frames;
      if |s| >= |first| {
        BrokenOff(chunks[1..], s[|first|..]);
      }
    }
  }

  lemma BreaksInFront(chunk: Bytes, more: Bytes, s: Bytes)
    requires 0 < |chunk| <= CHUNK_SIZE && s < Frame(chunk) + more
    ensures |s| < |Frame(chunk)| ==> Unframe(s).None?
    ensures |s| >= |Frame(chunk)| ==>
      s[|Frame(chunk)|..] < more && (Unframe(s[|Frame(chunk)|..]).None? ==> Unframe(s).None?)
  {
    var first, t := Frame(chunk), Frame(chunk) + more;
    if |s| >= |first| {
      assert s[..|first|] == t[..|first|] == first;
      assert t[|first|..] == more;
      assert s == first + s[|first|..];
      UnframeFrame(chunk, s[|first|..]);
    } else if |s| >= 4 {
      assert s[..4] == t[..4] == PutBe32(|chunk|);
    }
  }

  lemma IncompleteNotReceived(chunks: seq<Bytes>, s: Bytes)
    requires Sendable(chunks) && s < Request(chunks)
    ensures Received(s).None?
  {
    TooShort(s);
    hide Frames, Received, Unframe;
    var t := Request(chunks);
    if |s| >= |INSTREAM| {
      assert s[..|INSTREAM|] == t[..|INSTREAM|];
      CommandHeard(s);
      assert t[|INSTREAM|..] == Frames(chunks) + END_OF_STREAM;
      BrokenOff(chunks, s[|INSTREAM|..]);
    }
  }

  lemma TooShort(s: Bytes)
    ensures |s| < |INSTREAM| ==> Received(s).None?
  {
  }

  // ----- Sending -----

  /** `writeAll`: repeats short writes until everything is out. */
  method WriteAll(out: Sink, data: Bytes) returns (ok: bool)
    modifies out
    ensures ok ==> out.data == old(out.data) + data
    ensures !ok ==> old(out.data) <= out.data <= old(out.data) + data
    ensures ok <==> out.breaks == old(out.breaks)
    ensures out.breaks >= old(out.breaks)
  {
    var left := data;
    while |left| > 0
      invariant out.breaks == old(out.breaks)
      invariant |left| <= |data| && left == data[|data| - |left|..]
      invariant out.data == old(out.data) + data[..|data| - |left|]
    {
      var n, wrote := out.Write(left);
      assert data[..|data| - |left|] + left[..n] == data[..|data| - |left| + n];
      if !wrote {
        return false;
      }
      if n == 0 {
        return false;
      }
      left := left[n..];
    }
    ok := true;
  }

  datatype SendError = CanceledSend | WriteError | NoProgressError | SourceError(error: StreamError)

  /** One chunk with its length in front. */
  method SendChunk(out: Sink, chunk: Bytes) returns (ok: bool)
    requires 0 < |chunk| <= CHUNK_SIZE
    modifies out
    ensures ok ==> out.data == old(out.data) + Frame(chunk)
    ensures !ok ==> old(out.data) <= out.data <= old(out.data) + Frame(chunk)
    ensures ok <==> out.breaks == old(out.breaks)
    ensures out.breaks >= old(out.breaks)
  {
    assert out.data + Frame(chunk) == out.data + PutBe32(|chunk|) + chunk;
    hide PutBe32;
    ok := WriteAll(out, PutBe32(|chunk|));
    if ok {
      ok := WriteAll(out, chunk);
    }
  }

  /** What one more chunk, perhaps none, adds to those already sent. */
  function More(chunks: seq<Bytes>, chunk: Bytes): seq<Bytes> {
    if chunk == [] then chunks else chunks + [chunk]
  }

  /** How far the sending has come. */
  ghost predicate Sent(start: Bytes, data: Bytes, chunks: seq<Bytes>)
    requires Sendable(chunks)
  {
    data == start + Frames(chunks)
  }

  ghost predicate PartlySent(start: Bytes, data: Bytes, chunks: seq<Bytes>)
    requires Sendable(chunks)
  {
    start <= data <= start + Frames(chunks)
  }

  lemma Extended(start: Bytes, a: Bytes, b: Bytes, data: Bytes)
    requires start + a <= data <= start + a + b
    ensures start <= data <= start + (a + b) && start + (a + b) == start + a + b
  {
  }

  lemma SentMore(start: Bytes, before: Bytes, data: Bytes, chunks: seq<Bytes>, chunk: Bytes)
    requires Sendable(chunks) && |chunk| <= CHUNK_SIZE && Sent(start, before, chunks)
    requires before <= data <= before + if chunk == [] then [] else Frame(chunk)
    ensures Sendable(More(chunks, chunk)) && PartlySent(start, data, More(chunks, chunk))
    ensures data == (before + if chunk == [] then [] else Frame(chunk)) ==> Sent(start, data, More(chunks, chunk))
  {
    MoreSent(chunks, chunk);
    hide Frames, Frame, More, Flatten, Sendable;
    Extended(start, Frames(chunks), if chunk == [] then [] else Frame(chunk), data);
  }

  lemma ReadMore(source: Bytes, chunks: seq<Bytes>, chunk: Bytes, rest: Bytes)
    requires Sendable(chunks) && |chunk| <= CHUNK_SIZE && source == Flatten(chunks) + (chunk + rest)
    ensures source == Flatten(More(chunks, chunk)) + rest
  {
    MoreSent(chunks, chunk);
  }

  lemma MoreSent(chunks: seq<Bytes>, chunk: Bytes)
    requires Sendable(chunks) && |chunk| <= CHUNK_SIZE
    ensures Sendable(More(chunks, chunk)) && Flatten(More(chunks, chunk)) == Flatten(chunks) + chunk
    ensures Frames(More(chunks, chunk)) == Frames(chunks) + if chunk == [] then [] else Frame(chunk)
  {
    if chunk == [] {
      assert Flatten(chunks) + chunk == Flatten(chunks);
    } else {
      FlattenSnoc(chunks, chunk);
      FramesSnoc(chunks, chunk);
    }
  }

  /** One turn of the loop of `scan`. */
  method SendNext(ctx: Context, out: Sink, src: Source, emptyReads: nat)
    returns (err: Option<SendError>, finished: bool, empty: nat, ghost chunk: Bytes)
    requires emptyReads < MAX_EMPTY_READS && emptyReads <= src.dry
    modifies ctx, out, src
    ensures old(ctx.done) ==> ctx.done
    ensures err.None? && !finished ==> empty <= src.dry
    ensures |chunk| <= CHUNK_SIZE && chunk + src.rest == old(src.rest)
    ensures err.None? || err.value.SourceError? ==> out.data == old(out.data) + if chunk == [] then [] else Frame(chunk)
    ensures err.Some? ==> old(out.data) <= out.data <= old(out.data) + if chunk == [] then [] else Frame(chunk)
    ensures err.None? ==> empty < MAX_EMPTY_READS && (!finished && chunk == [] ==> empty == emptyReads + 1)
    ensures finished && err.None? ==> src.rest == [] && src.end == Eof
    ensures SendBlamed(ctx, out, src, err, old(out.breaks))
  {
    hide Frame;
    err, finished, empty, chunk := None, false, emptyReads, [];
    var canceled := ctx.Err();
    if canceled {
      return Some(CanceledSend), finished, empty, chunk;
    }
    var buffer, end := src.Read(CHUNK_SIZE);
    chunk := buffer;
    if |buffer| > 0 {
      empty := 0;
      var ok := SendChunk(out, buffer);
      if !ok {
        return Some(WriteError), finished, empty, chunk;
      }
    } else if end.None? {
      empty := empty + 1;
      if empty >= MAX_EMPTY_READS {
        return Some(NoProgressError), finished, empty, chunk;
      }
    }
    if end.Some? {
      if end.value.Broken? {
        return Some(SourceError(end.value.error)), finished, empty, chunk;
      }
      finished := true;
    }
  }

  /** The loop of `scan`: the terminating zero length is not sent yet. */
  method SendAll(ctx: Context, out: Sink, src: Source) returns (err: Option<SendError>, ghost chunks: seq<Bytes>)
    modifies ctx, out, src
    ensures old(ctx.done) ==> ctx.done
    ensures Sendable(chunks) && Flatten(chunks) <= old(src.rest)
    ensures err.None? ==> Sent(old(out.data), out.data, chunks) && Flatten(chunks) == old(src.rest) && src.end == Eof
    ensures err.Some? ==> PartlySent(old(out.data), out.data, chunks)
    ensures SendBlamed(ctx, out, src, err, old(out.breaks))
  {
    chunks, err := [], None;
    var emptyReads: nat, finished := 0, false;
    NothingSent(out.data, src.rest);
    ghost var start := out.data;
    hide Frames, Frame, Sendable, Flatten, Sent, PartlySent, More;
    while !finished && err.None?
      invariant old(ctx.done) ==> ctx.done
      invariant Sendable(chunks) && old(src.rest) == Flatten(chunks) + src.rest && emptyReads < MAX_EMPTY_READS
      invariant err.None? ==> Sent(start, out.data, chunks)
      invariant err.None? && !finished ==> emptyReads <= src.dry
      invariant err.Some? ==> PartlySent(start, out.data, chunks)
      invariant SendBlamed(ctx, out, src, err, old(out.breaks))
      invariant finished && err.None? ==> src.rest == [] && src.end == Eof
      decreases !finished, err.None?, |src.rest|, MAX_EMPTY_READS - emptyReads
    {
      ghost var chunk;
      ghost var before, rest := out.data, src.rest;
      var empty;
      err, finished, empty, chunk := SendNext(ctx, out, src, emptyReads);
      SentMore(start, before, out.data, chunks, chunk);
      ReadMore(old(src.rest), chunks, chunk, src.rest);
      chunks := More(chunks, chunk);
      emptyReads := if err.None? then empty else emptyReads;
    }
  }

  lemma NothingSent(start: Bytes, source: Bytes)
    ensures Sendable([]) && Sent(start, start, []) && source == Flatten<byte>([]) + source
  {
  }

  /**
   Each error has the cause its name says, and it alone: the writer has broken if and
   only if that is the error, however many writes were short before.
   */
  ghost predicate SendBlamed(ctx: Context, out: Sink, src: Source, err: Option<SendError>, breaks: nat)
    reads ctx, out`breaks, src`dry
  {
    && (if err == Some(WriteError) then out.breaks > breaks else out.breaks == breaks)
    && (err.Some? ==>
         match err.value
         case CanceledSend => ctx.done
         case WriteError => true
         case NoProgressError => src.dry >= 100
         case SourceError(e) => src.end == Broken(e))
  }

  /**
   The sending half of `scan`. Success means that one complete request went out whose
   bytes are exactly those of the source. Otherwise at most a beginning of a request
   did, and something is to blame.
   */
  method Send(ctx: Context, out: Sink, src: Source) returns (err: Option<SendError>, ghost chunks: seq<Bytes>)
    modifies ctx, out, src
    ensures old(ctx.done) ==> ctx.done
    ensures Sendable(chunks) && Flatten(chunks) <= old(src.rest)
    ensures err.None? ==>
      out.data == old(out.data) + Request(chunks) && Flatten(chunks) == old(src.rest) && src.end == Eof
    ensures err.Some? ==> old(out.data) <= out.data <= old(out.data) + Request(chunks)
    ensures SendBlamed(ctx, out, src, err, old(out.breaks))
  {
    NothingSent(out.data, src.rest);
    assert Frames([]) == [];
    hide Frames, Sendable, Flatten;
    chunks := [];
    ghost var start := out.data;
    RequestStarts(start, chunks, start + INSTREAM);
    var ok := WriteAll(out, INSTREAM);
    if !ok {
      return Some(WriteError), chunks;
    }
    err, chunks := SendAll(ctx, out, src);
    assert start + Request(chunks) == start + INSTREAM + Frames(chunks) + END_OF_STREAM;
    if err.None? {
      ok := WriteAll(out, END_OF_STREAM);
      err := if ok then None else Some(WriteError);
    }
  }

  lemma RequestStarts(start: Bytes, chunks: seq<Bytes>, s: Bytes)
    requires Sendable(chunks) && s <= start + INSTREAM + Frames(chunks)
    ensures s <= start + Request(chunks)
  {
    assert start + Request(chunks) == start + INSTREAM + Frames(chunks) + END_OF_STREAM;
  }

  // ----- The response -----

  /** `bufio.Reader.ReadByte`: gives up after a hundred reads without a byte. */
  method ReadByte(src: Source) returns (b: Option<byte>)
    modifies src
    ensures b.Some? ==> old(src.rest) != [] && b.value == old(src.rest)[0] && src.rest == old(src.rest)[1..]
    ensures b.None? ==> src.rest == old(src.rest) && (src.rest == [] || src.dry >= MAX_EMPTY_READS)
  {
    b := None;
    var tries := 0;
    var over := false;
    while b.None? && !over && tries < MAX_EMPTY_READS
      invariant b.None? ==> src.rest == old(src.rest)
      invariant b.Some? ==> old(src.rest) != [] && b.value == old(src.rest)[0] && src.rest == old(src.rest)[1..]
      invariant over ==> src.rest == []
      invariant b.None? && !over ==> src.dry >= tries
      decreases MAX_EMPTY_READS - tries
    {
      var chunk, end := src.Read(1);
      if |chunk| == 1 {
        assert old(src.rest) == [chunk[0]] + src.rest;
        b := Some(chunk[0]);
      } else if end.Some? {
        over := true;
      }
      tries := tries + 1;
    }
  }

  /** Where the first NUL is. */
  function FirstNul(s: Bytes): (n: nat)
    ensures n <= |s| && (n < |s| ==> s[n] == 0) && 0 !in s[..n]
  {
    if s == [] || s[0] == 0 then 0
    else
      assert forall n :: 0 <= n < |s| ==> s[..n + 1] == [s[0]] + s[1..][..n];
      1 + FirstNul(s[1..])
  }

  lemma {:induction false} FirstNulIs(s: Bytes, n: nat)
    requires n <= |s| && 0 !in s[..n]
    ensures FirstNul(s) >= n && (n < |s| && s[n] == 0 ==> FirstNul(s) == n)
  {
    if n > 0 {
      assert s[..n][0] == s[0] && s[..n] == [s[0]] + s[1..][..n - 1];
      FirstNulIs(s[1..], n - 1);
    }
  }

  /** A response that ends within the limit. */
  predicate Ends(s: Bytes, limit: nat) {
    FirstNul(s) < |s| && FirstNul(s) <= limit
  }

  /** `readNUL`: exactly the bytes before the first NUL, if that comes within the limit. */
  method ReadNul(src: Source, limit: nat) returns (r: Option<Bytes>)
    modifies src
    ensures r.Some? ==> Ends(old(src.rest), limit) && r.value == old(src.rest)[..FirstNul(old(src.rest))]
    ensures r.None? ==> src.dry >= MAX_EMPTY_READS || !Ends(old(src.rest), limit)
  {
    var response: Bytes := [];
    var found, failed := false, false;
    while !found && !failed && |response| <= limit
      invariant |response| <= limit + 1
      invariant 0 !in response && (found ==> |response| <= limit)
      invariant |response| + (if found then 1 else 0) <= |old(src.rest)|
      invariant response == old(src.rest)[..|response|] && (found ==> old(src.rest)[|response|] == 0)
      invariant src.rest == old(src.rest)[|response| + if found then 1 else 0..]
      invariant failed ==> src.rest == [] || src.dry >= MAX_EMPTY_READS
      decreases !found, !failed, limit + 1 - |response|
    {
      var b := ReadByte(src);
      if b.None? {
        failed := true;
      } else if b.value == 0 {
        found := true;
      } else {
        response := response + [b.value];
      }
    }
    r := if found then Some(response) else None;
    FirstNulIs(old(src.rest), |response|);
  }

  datatype Verdict = Clean | Found(signature: string) | Problem(message: string)

  const PREFIX := "stream: "
  const FOUND := " FOUND"
  const ERROR := " ERROR"

  predicate EndsIn(s: string, suffix: string) {
    |s| >= |suffix| && s[|s| - |suffix|..] == suffix
  }

  predicate OneLine(s: string) {
    '\r' !in s && '\n' !in s && '\0' !in s
  }

  /** What follows the prefix of a response. */
  function ParseDetail(detail: string): Option<Verdict> {
    if detail == "OK" then Some(Clean)
    else if EndsIn(detail, FOUND) && |detail| > |FOUND| then Some(Found(detail[..|detail| - |FOUND|]))
    else if EndsIn(detail, ERROR) && |detail| > |ERROR| then Some(Problem(detail[..|detail| - |ERROR|]))
    else None
  }

  /** `parseScanResponse` */
  function Parse(response: string): Option<Verdict> {
    if !OneLine(response) || !(PREFIX <= response) then None else ParseDetail(response[|PREFIX|..])
  }

  /** What a daemon says for each verdict. */
  function Spoken(v: Verdict): string {
    "stream: " + match v
                 case Clean => "OK"
                 case Found(signature) => signature + " FOUND"
                 case Problem(message) => message + " ERROR"
  }

  /** The texts a verdict can carry. */
  predicate Speakable(v: Verdict) {
    match v
    case Clean => true
    case Found(signature) => signature != "" && OneLine(signature)
    case Problem(message) => message != "" && OneLine(message)
  }

  lemma Endings()
    ensures |PREFIX| == 8 && |FOUND| == 6 && |ERROR| == 6 && FOUND[5] == 'D' && ERROR[5] == 'R'
    ensures OneLine(PREFIX) && OneLine(FOUND) && OneLine(ERROR) && OneLine("OK")
  {
  }

  lemma OneLineConcat(s: string, t: string)
    ensures OneLine(s + t) <==> OneLine(s) && OneLine(t)
  {
    assert forall c: char :: c in s + t <==> c in s || c in t;
  }

  /** What is said behind the prefix. */
  function Detail(v: Verdict): string {
    match v
    case Clean => "OK"
    case Found(signature) => signature + FOUND
    case Problem(message) => message + ERROR
  }

  lemma DetailParsed(v: Verdict)
    requires Speakable(v)
    ensures ParseDetail(Detail(v)) == Some(v)
  {
    Endings();
    hide OneLine, FOUND, ERROR;
    match v
    case Clean =>
    case Found(signature) => Ending(signature, FOUND);
    case Problem(message) => Ending(message, ERROR);
  }

  lemma DetailSpoken(detail: string)
    requires ParseDetail(detail).Some?
    ensures var v := ParseDetail(detail).value;
      && detail == Detail(v) && (v.Found? ==> v.signature != "") && (v.Problem? ==> v.message != "")
  {
    Endings();
    hide OneLine, FOUND, ERROR;
    if |detail| >= 6 {
      Rejoined(detail, |detail| - 6);
    }
  }

  lemma SpokenParts(v: Verdict)
    ensures Spoken(v) == PREFIX + Detail(v)
  {
  }

  lemma DetailOneLine(v: Verdict)
    ensures OneLine(PREFIX + Detail(v)) <==>
      (v.Found? ==> OneLine(v.signature)) && (v.Problem? ==> OneLine(v.message))
  {
    Endings();
    hide OneLine, PREFIX, FOUND, ERROR;
    OneLineConcat(PREFIX, Detail(v));
    match v
    case Clean =>
    case Found(signature) => OneLineConcat(signature, FOUND);
    case Problem(message) => OneLineConcat(message, ERROR);
  }

  /** Parsing and speaking are inverse: in particular only "stream: OK" means clean. */
  lemma ParseSpoken(response: string, v: Verdict)
    ensures Parse(response) == Some(v) <==> Speakable(v) && response == Spoken(v)
  {
    SpokenParts(v);
    DetailOneLine(v);
    Cut(PREFIX, Detail(v));
    if Speakable(v) {
      DetailParsed(v);
    }
    hide OneLine, PREFIX, Spoken, ParseDetail, Detail;
    if Parse(response) == Some(v) {
      Rejoined(response, |PREFIX|);
      DetailSpoken(response[|PREFIX|..]);
    }
  }

  lemma Cut(front: string, back: string)
    ensures front <= front + back && (front + back)[|front|..] == back
  {
  }

  lemma Ending(text: string, suffix: string)
    requires |suffix| == 6
    ensures var s := text + suffix; EndsIn(s, suffix) && s[|s| - 6..] == suffix && s[..|s| - 6] == text
    ensures text + suffix != "OK" && (text + suffix)[|text| + 5] == suffix[5]
  {
    assert |"OK"| == 2;
  }

  lemma Rejoined(s: string, n: nat)
    requires n <= |s|
    ensures s == s[..n] + s[n..]
  {
  }

  // ----- The whole exchange -----

  /** Why there is no verdict. */
  datatype Silence = NoConnection | NoRequest(error: SendError) | NoAnswer | BadAnswer(response: Bytes)

  /** Each of them says what has happened, on either side of the connection. */
  ghost predicate SilenceExplained(
    ctx: Context, out: Sink, src: Source, answers: Source, answer: Bytes, why: Silence, breaks: nat
  )
    reads ctx, out`breaks, src`dry, answers`dry
  {
    match why
    case NoConnection => false
    case NoRequest(e) => SendBlamed(ctx, out, src, Some(e), breaks)
    case NoAnswer => answers.dry >= 100 || !Ends(answer, 64 * 1024)
    case BadAnswer(response) => response == answer[..FirstNul(answer)] && Parse(Text(response)).None?
  }

  /**
   `scan`. A verdict is given only after the daemon has been sent one complete request
   for exactly the bytes of the source, and only as its answer spells it. Without a
   verdict something has broken, dried up or been misspelt: short writes and up to a
   hundred empty reads in a row are no excuse.
   */
  method ScanStream(
    ctx: Context, out: Sink, src: Source, answers: Source
  ) returns (r: Result<Verdict, Silence>, ghost response: Bytes)
    requires out.data == [] && src != answers
    modifies ctx, out, src, answers
    ensures old(ctx.done) ==> ctx.done
    ensures r.Ok? ==> Received(out.data) == Some(old(src.rest)) && src.end == Eof && |response| <= 64 * 1024
    ensures r.Ok? ==>
      response == old(answers.rest)[..FirstNul(old(answers.rest))] && Parse(Text(response)) == Some(r.value)
    ensures r.Err? ==> SilenceExplained(ctx, out, src, answers, old(answers.rest), r.error, old(out.breaks))
  {
    response := [];
    var err;
    ghost var chunks;
    err, chunks := Send(ctx, out, src);
    if err.Some? {
      return Err(NoRequest(err.value)), response;
    }
    assert out.data == Request(chunks);
    RoundTrip(chunks);
    hide Received, Request, Parse, FirstNul;
    var answer := ReadNul(answers, MAX_RESPONSE);
    if answer.None? {
      return Err(NoAnswer), response;
    }
    response := answer.value;
    var verdict := Parse(Text(answer.value));
    r := if verdict.Some? then Ok(verdict.value) else Err(BadAnswer(answer.value));
  }
}
