/** Download of an object to a local file (`downloadFile`,
    src/index.ts:87-130): a strictly sequential read-then-write loop over
    the body's chunks that counts the bytes written, with the progress
    divisor taken from the reported content length. The store's response
    and the chunks its body yields are inputs. */
module Transfer {
  import opened Wrappers
  import opened Seqs

  newtype byte = x: int | 0 <= x < 256

  type Chunk = seq<byte>

  /** How the body's reader stops: it reports `done`, or a read rejects. */
  datatype StreamEnd = Finished | Broken

  /** The chunks the body's reader yields, in order, and how it stops. */
  datatype Body = Body(chunks: seq<Chunk>, end: StreamEnd)

  /** The part of a `GetObjectCommand` response the download uses. */
  datatype GetObjectOutput = GetObjectOutput(body: Option<Body>, contentLength: Option<nat>)

  datatype DownloadError =
    | NoBody       // "Object recieved with no body."
    | WriteFailed  // the local file could not be opened or written: its unhandled `error` event
    | ReadFailed   // a read of the body rejected part-way

  /** What one download did: its outcome, the local file's contents when
      every write was accepted, the final byte counter, the progress
      divisor, every value of the byte counter the progress timer can
      observe, and whether the timer was cleared and the file closed. */
  datatype DownloadReport = DownloadReport(
    outcome: Outcome<DownloadError>,
    file: Option<seq<byte>>,
    downloaded: nat,
    divisor: nat,
    progress: seq<nat>,
    settled: bool)

  /** `result.ContentLength || 1`: the denominator of the progress ratio,
      never zero. */
  function ProgressDivisor(contentLength: Option<nat>): (d: nat)
    ensures d >= 1
    ensures contentLength.Some? && contentLength.value != 0 ==> d == contentLength.value
    ensures contentLength.None? || contentLength.value == 0 ==> d == 1
  {
    if contentLength.Some? && contentLength.value != 0 then contentLength.value else 1
  }

  /** How a download of `response` to a destination that does or does not
      accept writes ends: a missing body fails before the file is opened, a
      destination that refuses writes fails next, a broken body fails after
      its chunks are written, and only a whole body written to a writable
      destination passes. */
  function DownloadOutcome(response: GetObjectOutput, writable: bool): (r: Outcome<DownloadError>)
    ensures r.Pass? <==> response.body.Some? && writable && response.body.value.end.Finished?
    ensures response.body.None? ==> r == Fail(NoBody)
    ensures response.body.Some? && !writable ==> r == Fail(WriteFailed)
    ensures response.body.Some? && writable && response.body.value.end == Broken ==> r == Fail(ReadFailed)
  {
    if response.body.None? then Fail(NoBody)
    else if !writable then Fail(WriteFailed)
    else if response.body.value.end == Broken then Fail(ReadFailed)
    else Pass
  }

  /** The download loop. A missing body fails before the file is created.
      A destination that refuses writes fails the download, and nothing is
      said about what reached it. Otherwise each chunk is written in full
      before the next is read, so the file is the in-order concatenation
      of the chunks and the counter is the sum of their lengths, whether
      the stream finishes or breaks; the timer is cleared and the file
      closed only when it finishes. */
  method DownloadFile(response: GetObjectOutput, writable: bool) returns (r: DownloadReport)
    ensures r.outcome == DownloadOutcome(response, writable)
    ensures r.divisor >= 1 && r.divisor == ProgressDivisor(response.contentLength)
    ensures response.body.None? ==> r.file.None? && r.downloaded == 0 && r.progress == [] && !r.settled
    ensures response.body.Some? && !writable ==> r.file.None? && !r.settled
    ensures response.body.Some? && writable ==>
              var chunks := response.body.value.chunks;
              && r.file == Some(Flatten(chunks))
              && r.downloaded == TotalLength(chunks) == |r.file.value|
              && |r.progress| == |chunks| + 1
              && r.progress[0] == 0
              && r.progress[|chunks|] == r.downloaded
              && (forall k :: 0 <= k < |chunks| ==> r.progress[k + 1] == r.progress[k] + |chunks[k]|)
              && (r.settled <==> response.body.value.end == Finished)
  {
    var divisor := ProgressDivisor(response.contentLength);
    if response.body.None? {
      return DownloadReport(Fail(NoBody), None, 0, divisor, [], false);
    }
    if !writable {
      return DownloadReport(Fail(WriteFailed), None, 0, divisor, [], false);
    }
    var body := response.body.value;
    var chunks := body.chunks;
    var file: seq<byte> := [];
    var downloaded: nat := 0;
    var progress: seq<nat> := [0];
    var i := 0;
    while i < |chunks|
      invariant 0 <= i <= |chunks|
      invariant file == Flatten(chunks[..i])
      invariant downloaded == |file|
      invariant |progress| == i + 1
      invariant progress[0] == 0 && progress[i] == downloaded
      invariant forall k :: 0 <= k < i ==> progress[k + 1] == progress[k] + |chunks[k]|
    {
      var value := chunks[i];
      assert chunks[..i + 1] == chunks[..i] + [value];
      FlattenSnoc(chunks[..i], value);
      file := file + value;
      downloaded := downloaded + |value|;
      progress := progress + [downloaded];
      i := i + 1;
    }
    assert chunks[..i] == chunks;
    FlattenLength(chunks);
    if body.end == Broken {
      return DownloadReport(Fail(ReadFailed), Some(file), downloaded, divisor, progress, false);
    }
    return DownloadReport(Pass, Some(file), downloaded, divisor, progress, true);
  }
}
