/**
 The engines outside the program and a journal of what they have said: the type
 detector and the malware daemon (internal/detect/detector.go, internal/malware/clamd.go).
 */
module Engines {
  import opened Basics
  import opened Streams
  import opened BoundedCopy
  import Clamd

  datatype FileType = ArchiveZip | Ooxml | Executable | Package | OtherType

  /** What the type detector reports, and what the policy tables make of it. */
  datatype Detection = Detection(kind: FileType, archiveMime: bool, mismatch: bool, unusual: Option<string>)

  datatype DetectError = TimedOut | ZipError(code: Code) | TooManyPixels | DetectorFailed

  // ----- The journal -----

  /**
   What has happened in a run that can decide a record or end the run. A scan without a verdict has
   `Expired` when the time for the file was up, and is `Lost` otherwise.
   */
  datatype Event =
    | Started(uploads: nat)
    | Answered(request: Bytes, response: Bytes)
    | Unanswered(data: Bytes, why: Clamd.Silence)
    | Expired(data: Bytes)
    | Lost(data: Bytes)
    | Examined(data: Bytes, finding: Result<Detection, DetectError>)
    | Allowed(data: Bytes, left: nat)
    | Disturbed

  type Journal = seq<Event>

  /** The daemon was asked about exactly these bytes and gave this verdict. */
  ghost predicate Judged(log: Journal, data: Bytes, v: Clamd.Verdict) {
    exists e :: e in log && e.Answered? && Clamd.Received(e.request) == Some(data) &&
      Clamd.Text(e.response) == Clamd.Spoken(v)
  }

  ghost predicate Cleared(log: Journal, data: Bytes) {
    Judged(log, data, Clamd.Clean)
  }

  ghost predicate Condemned(log: Journal, data: Bytes) {
    exists name :: Judged(log, data, Clamd.Found(name))
  }

  /** A scan of these bytes has ended without a verdict. */
  ghost predicate Silent(log: Journal, data: Bytes) {
    exists why :: Unanswered(data, why) in log
  }

  /** The detector has examined exactly these bytes and found them to be of this type. */
  ghost predicate Seen(log: Journal, data: Bytes, kind: FileType) {
    exists d: Detection :: Examined(data, Ok(d)) in log && d.kind == kind
  }

  ghost predicate SeenMismatch(log: Journal, data: Bytes) {
    exists d: Detection :: Examined(data, Ok(d)) in log && d.mismatch
  }

  /** It has failed on them in this way. */
  predicate DetectionFailed(log: Journal, data: Bytes, err: DetectError) {
    Examined(data, Err(err)) in log
  }

  lemma JudgedLater(log: Journal, later: Journal, data: Bytes, v: Clamd.Verdict)
    requires Judged(log, data, v) && log <= later
    ensures Judged(later, data, v)
  {
    var e :| e in log && e.Answered? && Clamd.Received(e.request) == Some(data) &&
      Clamd.Text(e.response) == Clamd.Spoken(v);
    assert e in later;
  }

  lemma StillThere(log: Journal, later: Journal, e: Event)
    requires e in log && log <= later
    ensures e in later
  {
    var i :| 0 <= i < |log| && log[i] == e;
    assert later[i] == e;
  }

  lemma SeenLater(log: Journal, later: Journal, data: Bytes, kind: FileType)
    requires Seen(log, data, kind) && log <= later
    ensures Seen(later, data, kind)
  {
    var d: Detection :| Examined(data, Ok(d)) in log && d.kind == kind;
    StillThere(log, later, Examined(data, Ok(d)));
  }

  lemma SilentLater(log: Journal, later: Journal, data: Bytes)
    requires Silent(log, data) && log <= later
    ensures Silent(later, data)
  {
    var why :| Unanswered(data, why) in log;
    StillThere(log, later, Unanswered(data, why));
  }

  // ----- The daemon -----

  /** The client of the daemon, which connects once for each scan. */
  class Client {
    /** The journal of the run. */
    ghost var log: Journal

    constructor ()
      ensures log == []
    {
      log := [];
    }

    ghost method Note(e: Event)
      modifies this
      ensures log == old(log) + [e] && e in log
    {
      log := log + [e];
      assert log[|log| - 1] == e;
    }

    /**
     `Client.Scan`: what the source, the socket and the daemon do is up to the
     environment. There is a verdict, or the journal says why there is none.
     */
    method Scan(ctx: Context, data: Bytes) returns (r: Option<Clamd.Verdict>)
      modifies this, ctx
      ensures old(ctx.done) ==> ctx.done
      ensures |log| == |old(log)| + 1 && old(log) <= log
      ensures r.Some? ==> log[|old(log)|].Answered? && Judged(log, data, r.value)
      ensures r.None? ==> log[|old(log)|].Unanswered? && log[|old(log)|].data == data && Silent(log, data)
      ensures r.None? && log[|old(log)|].why.BadAnswer? ==>
        Clamd.Parse(Clamd.Text(log[|old(log)|].why.response)).None?
      ensures r.None? && log[|old(log)|].why == Clamd.NoRequest(Clamd.CanceledSend) ==> ctx.done
    {
      hide Clamd.Received, Clamd.Parse, Clamd.Spoken, Clamd.Ends, Clamd.FirstNul;
      var connected: bool := *;
      if !connected {
        Note(Unanswered(data, Clamd.NoConnection));
        return None;
      }
      var whole: bool, stalls: bool, answer: Bytes, mute: bool := *, *, *, *;
      var src := new Source(Body(data, if whole then Eof else Broken(OtherError), stalls));
      var out := new Sink(false);
      var answers := new Source(Body(answer, Eof, mute));
      var verdict;
      ghost var response;
      verdict, response := Clamd.ScanStream(ctx, out, src, answers);
      match verdict
      case Ok(v) =>
        Note(Answered(out.data, response));
        Clamd.ParseSpoken(Clamd.Text(response), v);
        r := Some(v);
      case Err(why) =>
        Note(Unanswered(data, why));
        r := None;
    }
  }
}
