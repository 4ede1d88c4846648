/** Cancellable contexts, and byte streams whose chunking is up to the environment. */
module Streams {
  import opened Basics

  /** A `context.Context`: at any moment it may be done, and then it stays done. */
  class Context {
    var done: bool

    constructor ()
      ensures !done
    {
      done := false;
    }

    /** `ctx.Err() != nil` */
    method Err() returns (canceled: bool)
      modifies this
      ensures canceled == done && (old(done) ==> done)
    {
      if * {
        done := true;
      }
      canceled := done;
    }
  }

  /** Counts the bytes of archive members that have reached a file or a digest. */
  class Meter {
    ghost var total: nat

    constructor ()
      ensures total == 0
    {
      total := 0;
    }

    ghost method Count(n: nat)
      modifies this
      ensures total == old(total) + n
    {
      total := total + n;
    }
  }

  /** The errors of a ZIP member stream that the gate tells apart. */
  datatype StreamError = Format | Checksum | Algorithm | OtherError

  /** How a stream ends once everything before the end has been delivered. */
  datatype End = Eof | Broken(error: StreamError)

  /** What a stream will deliver: its bytes, its end, and whether it may stall on the way. */
  datatype Body = Body(data: Bytes, end: End, stalls: bool)

  /**
   An `io.Reader`. Each read delivers some of what is left, at most `max` bytes
   and perhaps none; the end may be reported together with the last bytes or
   later, never earlier.
   */
  class Source {
    var rest: Bytes
    const end: End
    const stalls: bool
    /** How many reads in a row have delivered nothing, not even the end. */
    ghost var dry: nat

    constructor (body: Body)
      ensures rest == body.data && end == body.end && stalls == body.stalls && dry == 0
    {
      rest, end, stalls, dry := body.data, body.end, body.stalls, 0;
    }

    method Read(max: nat) returns (chunk: Bytes, end: Option<End>)
      requires max > 0
      modifies this
      ensures chunk + rest == old(rest) && |chunk| <= max
      ensures end.Some? ==> rest == [] && end.value == this.end
      ensures chunk == [] && end.None? ==> stalls
      ensures chunk == [] && end.None? ==> rest == old(rest)
      ensures dry == if chunk == [] && end.None? then old(dry) + 1 else 0
    {
      var limit := if |rest| < max then |rest| else max;
      var n: nat :| n <= limit && (limit > 0 && !stalls ==> n > 0);
      chunk, rest := rest[..n], rest[n..];
      end := None;
      if rest == [] && (n == 0 && !stalls) {
        end := Some(this.end);
      } else if rest == [] {
        if * {
          end := Some(this.end);
        }
      }
      dry := if chunk == [] && end.None? then dry + 1 else 0;
    }

    /** `io.ReadFull` for two bytes: all of them, or how the stream ended instead. */
    method ReadPair() returns (pair: Bytes, end: Option<End>)
      modifies this
      ensures pair + rest == old(rest)
      ensures end.None? ==> |pair| == 2
      ensures end.Some? ==> end.value == this.end && rest == [] && |pair| < 2
    {
      if |rest| >= 2 {
        pair, rest := rest[..2], rest[2..];
        end := None;
      } else {
        pair, rest := rest, [];
        end := Some(this.end);
      }
    }
  }

  /** An `io.Writer`; one that is not `perfect` may fail after any prefix, or stop short. */
  class Sink {
    var data: Bytes
    var failed: bool
    const perfect: bool
    /** How many writes have reported an error, or taken nothing of something. */
    ghost var breaks: nat

    constructor (perfect: bool)
      ensures data == [] && !failed && this.perfect == perfect && breaks == 0
    {
      data, failed, this.perfect, breaks := [], false, perfect, 0;
    }

    method Write(chunk: Bytes) returns (n: nat, ok: bool)
      modifies this
      ensures n <= |chunk| && data == old(data) + chunk[..n]
      ensures failed == (old(failed) || !ok || n != |chunk|)
      ensures perfect ==> ok && n == |chunk|
      ensures breaks == old(breaks) + if !ok || (n == 0 && chunk != []) then 1 else 0
    {
      n, ok := |chunk|, true;
      if * {
        if !perfect {
          n :| 0 <= n <= |chunk|;
          ok := *;
        }
      }
      data := data + chunk[..n];
      failed := failed || !ok || n != |chunk|;
      breaks := breaks + if !ok || (n == 0 && chunk != []) then 1 else 0;
    }
  }
}
