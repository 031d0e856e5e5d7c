/** The encoder run (`runFFMpeg`, src/index.ts:132-173): the fixed
    argument list with the input and output paths passed through, the
    relay of the encoder's diagnostic chunks to standard output, and the
    reading of its exit status. The child process is an input: what it
    printed and how it ended. */
module Encoder {
  import opened Wrappers
  import opened Seqs

  /** The encoder process as observed from outside: it could not be
      spawned (the `error` event), or it closed after printing `stderr` in
      chunks, with an exit code, or none when a signal ended it. */
  datatype Process =
    | SpawnFailed
    | Closed(stderr: seq<string>, code: Option<int>)

  datatype EncodeError =
    | LaunchError                  // the `error` event: the binary could not be started
    | ExitStatus(code: Option<int>)  // "ffmpeg exited with status code: " + code

  /** The program the encoder is spawned from. */
  const Executable: string := "./ffmpeg"

  /** Scales to a width of 1280 when the input is wider than 16:9 and to a
      height of 720 otherwise, keeping the aspect ratio with an even other
      side; smaller inputs are scaled up. */
  const ScaleFilter: string := "scale='if(gt(iw/ih,16/9),1280,-2)':'if(gt(iw/ih,16/9),-2,720)'"

  /** The encoder's command line after the executable. */
  function EncoderArgs(inFile: string, outFile: string): (args: seq<string>)
    ensures |args| == 18
    ensures args[5] == "-i" && args[6] == inFile
    ensures args[|args| - 1] == outFile
  {
    ["-hide_banner", "-v", "warning", "-stats", "-y",
     "-i", inFile,
     "-vf", ScaleFilter,
     "-c:v", "libvpx-vp9",
     "-deadline", "realtime",
     "-cpu-used", "8",
     "-crf", "25",
     outFile]
  }

  /** The paths are the only arguments that vary: two command lines agree
      everywhere except at the input and output positions. */
  lemma OnlyPathsVary(in1: string, out1: string, in2: string, out2: string)
    ensures forall i :: 0 <= i < 18 && i != 6 && i != 17 ==>
              EncoderArgs(in1, out1)[i] == EncoderArgs(in2, out2)[i]
  {
  }

  /** The `close` handler: success exactly on exit code 0, whatever was
      printed; a failure keeps the code (or its absence) it ended with. */
  function ExitResult(p: Process): (r: Outcome<EncodeError>)
    ensures r.Pass? <==> p.Closed? && p.code == Some(0)
    ensures p.SpawnFailed? ==> r == Fail(LaunchError)
    ensures p.Closed? && p.code != Some(0) ==> r == Fail(ExitStatus(p.code))
  {
    match p
    case SpawnFailed => Fail(LaunchError)
    case Closed(_, code) => if code == Some(0) then Pass else Fail(ExitStatus(code))
  }

  /** The `data` handler on standard error: a chunk is written to standard
      output as it is, with one newline appended when it holds no newline
      anywhere (a chunk with an inner newline but none at its end is passed
      through unchanged). */
  function RelayChunk(chunk: string): (out: string)
    ensures '\n' in out
    ensures out == chunk <==> '\n' in chunk
    ensures |chunk| <= |out| <= |chunk| + 1 && out[..|chunk|] == chunk
  {
    if '\n' in chunk then chunk else chunk + "\n"
  }

  /** The writes made to standard output, one per diagnostic chunk, in
      arrival order. */
  function RelayWrites(chunks: seq<string>): (writes: seq<string>)
    ensures |writes| == |chunks|
    ensures forall i :: 0 <= i < |chunks| ==> writes[i] == RelayChunk(chunks[i])
  {
    if |chunks| == 0 then [] else [RelayChunk(chunks[0])] + RelayWrites(chunks[1..])
  }

  /** The relayed text holds at least one newline per diagnostic chunk.
      A chunk with an inner newline but none at its end still runs into
      the next one on the same line. */
  lemma {:induction false} RelayedLineBreaks(chunks: seq<string>)
    ensures Count(Flatten(RelayWrites(chunks)), '\n') >= |chunks|
    decreases |chunks|
  {
    if |chunks| > 0 {
      var writes := RelayWrites(chunks);
      assert writes[1..] == RelayWrites(chunks[1..]);
      RelayedLineBreaks(chunks[1..]);
      CountAppend(writes[0], Flatten(writes[1..]), '\n');
      CountPositive(writes[0], '\n');
    }
  }

  /** Nothing is dropped: relaying every chunk of a closed process adds
      exactly one character per chunk that held no newline. */
  lemma {:induction false} RelayedLength(chunks: seq<string>)
    ensures |Flatten(RelayWrites(chunks))| == TotalLength(chunks) + |NewlineFree(chunks)|
    decreases |chunks|
  {
    if |chunks| > 0 {
      var writes := RelayWrites(chunks);
      assert writes[1..] == RelayWrites(chunks[1..]);
      RelayedLength(chunks[1..]);
    }
  }

  /** The chunks that hold no newline, in order. */
  function NewlineFree(chunks: seq<string>): seq<string>
  {
    if |chunks| == 0 then []
    else (if '\n' in chunks[0] then [] else [chunks[0]]) + NewlineFree(chunks[1..])
  }
}
