/** The archive error codes and the byte-limited copy of internal/archive/zip.go. */
module BoundedCopy {
  import opened Basics
  import opened Streams

  datatype Code =
    | Invalid | Encrypted | LimitExceeded | UnsafePath | DuplicatePath | ChecksumError
    | Unsupported | Symlink | SpecialFile | Canceled | IOError | InvalidLimits

  /** An error of `copyAtMost`: already coded, or passed through from the source. */
  datatype CopyError = Coded(code: Code) | NoProgress | FromSource(error: StreamError)

  const COPY_BUFFER := 32 * 1024
  const MAX_INT64 := 0x7FFF_FFFF_FFFF_FFFF

  /** `contextError` */
  method ContextError(ctx: Context) returns (code: Option<Code>)
    modifies ctx
    ensures old(ctx.done) ==> ctx.done
    ensures code == if ctx.done then Some(Canceled) else None
  {
    var canceled := ctx.Err();
    code := if canceled then Some(Canceled) else None;
  }

  /** `io.LimitedReader.Read`: its own end of file comes only once the allowance is spent. */
  method LimitedRead(src: Source, allowance: int) returns (chunk: Bytes, end: Option<End>)
    modifies src
    ensures chunk + src.rest == old(src.rest) && |chunk| <= COPY_BUFFER
    ensures allowance <= 0 ==> chunk == [] && end == Some(Eof)
    ensures allowance > 0 ==> |chunk| <= allowance
    ensures allowance > 0 && end.Some? ==> src.rest == [] && end.value == src.end
    ensures allowance > 0 && chunk == [] && end.None? ==> src.stalls && src.dry > 0
  {
    if allowance <= 0 {
      chunk, end := [], Some(Eof);
    } else {
      chunk, end := src.Read(Min(COPY_BUFFER, allowance));
    }
  }

  /** Reading and writing move along the source together. */
  lemma Advanced(source: Bytes, written: nat, chunk: Bytes, rest: Bytes, before: Bytes)
    requires written <= |source| && source[written..] == chunk + rest
    ensures written + |chunk| <= |source| && source[written + |chunk|..] == rest
    ensures forall n {:trigger chunk[..n]} :: 0 <= n <= |chunk| ==>
      before + source[..written] + chunk[..n] == before + source[..written + n]
    ensures chunk[..|chunk|] == chunk
  {
    forall n {:trigger chunk[..n]} | 0 <= n <= |chunk|
      ensures before + source[..written] + chunk[..n] == before + source[..written + n]
    {
      assert source[..written] + chunk[..n] == source[..written + n];
    }
  }

  /**
   `copyAtMost`. What reaches the destination is a prefix of the source of at most
   `limit` bytes, whatever the chunking. Success means that the source really
   ended, in full. Each error says what happened, so a clean source that is too
   long can only end in `LimitExceeded`, a cancellation, a write failure or a
   stall.
   */
  method CopyAtMost(ctx: Context, dst: Sink, src: Source, limit: int) returns (n: int, err: Option<CopyError>)
    modifies ctx, dst, src
    ensures old(ctx.done) ==> ctx.done
    ensures old(dst.data) <= dst.data
    ensures var copied := dst.data[|old(dst.data)|..];
      && copied <= old(src.rest)
      && |copied| <= n
      && (err != Some(Coded(LimitExceeded)) ==> |copied| == n)
      && (err.None? ==> copied == old(src.rest) && src.end == Eof)
    ensures 0 <= n && (limit >= 0 ==> n <= limit) && (limit < 0 ==> n == 0)
    ensures err == Some(Coded(LimitExceeded)) ==> limit < 0 || limit == MAX_INT64 || |old(src.rest)| > limit
    ensures limit < 0 || limit == MAX_INT64 ==> err == Some(Coded(LimitExceeded))
    ensures err == Some(Coded(LimitExceeded)) ==> n == if limit < 0 || limit == MAX_INT64 then 0 else limit
    ensures err == Some(Coded(Canceled)) ==> ctx.done
    ensures err == Some(Coded(IOError)) ==> dst.failed && !dst.perfect
    ensures err.Some? && err.value.Coded? ==> err.value.code in {LimitExceeded, Canceled, IOError}
    ensures err == Some(NoProgress) ==> src.stalls && src.dry > 0
    ensures forall e :: err == Some(FromSource(e)) ==> src.end == Broken(e) && n == |old(src.rest)|
    ensures !dst.failed || old(dst.failed) || err == Some(Coded(IOError))
    ensures src.end == Eof && !src.stalls && |old(src.rest)| > limit && !ctx.done && dst.perfect ==>
      err == Some(Coded(LimitExceeded))
  {
    if limit < 0 || limit == MAX_INT64 {
      return 0, Some(Coded(LimitExceeded));
    }
    var allowance := limit + 1;
    var written := 0;
    ghost var source, before := src.rest, dst.data;
    while true
      invariant 0 <= written <= limit && allowance == limit + 1 - written
      invariant old(ctx.done) ==> ctx.done
      invariant written <= |source| && src.rest == source[written..]
      invariant dst.data == before + source[..written]
      invariant dst.failed == old(dst.failed)
      decreases allowance
    {
      var canceled := ContextError(ctx);
      if canceled.Some? {
        return written, Some(Coded(Canceled));
      }
      var chunk, end := LimitedRead(src, allowance);
      Advanced(source, written, chunk, src.rest, before);
      allowance := allowance - |chunk|;
      if |chunk| > 0 {
        if written + |chunk| > limit {
          return limit, Some(Coded(LimitExceeded));
        }
        var wrote, ok := dst.Write(chunk);
        written := written + wrote;
        if !ok {
          return written, Some(Coded(IOError));
        }
        if wrote != |chunk| {
          return written, Some(Coded(IOError));
        }
      }
      if end.Some? {
        match end.value
        case Eof => return written, None;
        case Broken(e) => return written, Some(FromSource(e));
      }
      if |chunk| == 0 {
        return written, Some(NoProgress);
      }
    }
  }

  /** `classifyZIPError` for an error of the copy. */
  function Classify(err: CopyError): Code {
    match err
    case Coded(code) => code
    case NoProgress => Invalid
    case FromSource(Checksum) => ChecksumError
    case FromSource(Algorithm) => Unsupported
    case FromSource(_) => Invalid
  }
}
