# video-conversion-function, modelled in Dafny

The function is triggered by object-storage notifications. For every
newly created object it produces a VP9/WebM copy of the video. Given a
batch of notification messages it:

1. selects the object-creation messages that name a bucket and an object,
   in message order;
2. derives a work name and a result name from the object id;
3. decides between working on a locally mounted copy of the bucket and
   transferring through the store;
4. downloads the object if needed, runs the encoder, uploads the result if
   needed, and reports completion.

Its configuration comes from four environment variables, read once at
start-up.

The model keeps that logic and replaces every external system with an
input:

- filesystem probes are a function from path to probe result;
- the store's response is a value holding a body, given as a chunk
  sequence with its end state, and a content length;
- whether the local destination accepts the download's writes is a flag
  per path;
- the process that spawning an executable with arguments starts is a
  value: spawn failure, or the stderr chunks and the exit code;
- an upload is a success flag;
- a batch is given one such world per run, as it stands when that run
  starts.

What the pipeline does is recorded as a trace of effects (`Download`,
`Encode`, `Upload`, `Done`) together with an outcome.

Modules, one per file:

- `Wrappers`: `Option`, `Result`, `Outcome`.
- `Seqs`: flattening, total length and occurrence counts of sequences.
- `Text`: JavaScript's `split` and `join` with a one-character separator,
  and a back-to-front reference definition of "the part after / before
  the last separator".
- `Naming`: the work name, the result name and the `/tmp/` paths.
- `Config`: `envVar` and the `config` object.
- `Mount`: `checkBucketMount`.
- `Transfer`: the `downloadFile` loop.
- `Encoder`: the encoder's command line, its stderr relay and its exit
  status.
- `Events`: the event payload and the message filter.
- `Pipeline`: `action` and `handler`.

Three points of the code's behaviour are easy to misread:

- **Batch failures.** A failing `action` is not caught, so the first
  failure ends the batch. `Pipeline.Dispatch` models this.
- **Object probe.** The object probe only checks that the path exists, so
  a directory there also selects the mount. `Mount.CheckBucketMount`
  models this.
- **Scale filter.** The comment at `src/index.ts:134` scales the height to
  1280. The argument actually passed scales it to 720, and
  `Encoder.ScaleFilter` holds the 720 version. Either way, smaller inputs
  are scaled up.

## Model

| member | source | states |
|---|---|---|
| Text.Split | src/index.ts:40-41 | `s.split(sep)` always has at least one part |
| Text.SplitCount | src/index.ts:40-41 | `s.split(sep)` has one more part than `s` has separators |
| Text.Join | src/index.ts:41 | `parts.join(sep)`; it undoes `Split` (`Join(Split(s, sep), sep) == s`, by `Text.SplitJoin`), and its length is given by `Text.JoinLength` |
| Text.JoinLength | src/index.ts:41 | joining adds nothing but one separator between neighbouring parts: the empty join is "", otherwise the length is the parts' total plus one less than their number |
| Text.SplitJoin | src/index.ts:40-41 | `split` and `join` are inverse: no part of `s.split(sep)` holds the separator, and joining the parts with it gives `s` back |
| Text.LastPart | src/index.ts:40-41 | for any separator-free parts joining to `s`, the last part is what follows the last separator, and joining the others gives what precedes it |
| Text.LastSeparatorAt | src/index.ts:40-41 | for a string `a` + sep + `b` with `b` separator-free, the part after the last separator is exactly `b` and the part before it is exactly `a` |
| Naming.WorkName | src/index.ts:40 | the work name (the last `/`-segment of the id) equals the reference "part after the last `/`" |
| Naming.DropExtension | src/index.ts:41 | dropping the last `.`-component with split/slice/join equals the reference "part before the last `.`", which is empty when there is no dot |
| Naming.ResultName | src/index.ts:41 | the result name always ends in `.webm` |
| Naming.TmpPathsDistinct | src/index.ts:43-44 | two names give the same `/tmp/` path exactly when they are the same name |
| Naming.WorkNameIsLastSegment | src/index.ts:40 | the work name holds no `/`, ends the id, follows a `/` when the id has one, and is the whole id otherwise |
| Naming.ResultNameReplacesExtension | src/index.ts:40-41 | when the work name has a dot it splits as stem `.` ext with a dot-free ext, and the result name is stem + `.webm`; inner dots stay in the stem |
| Naming.ExtensionlessResultName | src/index.ts:41 | a work name without a dot gives the result name `.webm` exactly |
| Naming.ExtensionlessNamesCollide | src/index.ts:41 | two objects whose last segments have no dot get the same result name, so their results share a key |
| Naming.ResultNameHasNoSlash | src/index.ts:40-41 | the result name never holds a `/` |
| Naming.StemKeepsAbsentChars | src/index.ts:41 | dropping the extension introduces no character that was absent from the name, for the code's split/slice/join and for the reference alike |
| Naming.TrailingSlashGivesEmptyWorkName | src/index.ts:40-43 | an id ending in `/` gives an empty work name, and the work path is the bare `/tmp/` |
| Naming.DerivedNames | src/index.ts:40-41 | for `dir/stem.ext` with a dot-free, slash-free ext and slash-free stem, the work name is `stem.ext` and the result name is `stem.webm` (so `folder/video.final.mp4` gives `video.final.webm`) |
| Config.Message | src/config.ts:6 | the error message names the offending variable, in double quotes at its start |
| Config.EnvVar | src/config.ts:3-8 | fails exactly when the variable is required and unset or empty, reporting that variable; otherwise returns the raw value unchanged, absent exactly when the variable is unset |
| Config.RequiredVar | src/config.ts:1-8 | a required variable succeeds exactly when set and non-empty, and then yields its value |
| Config.OptionalVar | src/config.ts:2-8 | an optional variable never fails: absent when unset, otherwise the value unchanged, including the empty string |
| Config.FirstUnset | src/config.ts:11-14 | the first of a list of keys that is unset or empty: every key before it is set, and there is none exactly when all keys are set |
| Config.LoadConfig | src/config.ts:11-16 | a failure names a required variable that is unset or empty; a success means every required variable is set (the order is stated by `Config.LoadConfigChecksInOrder`) |
| Config.LoadConfigChecksInOrder | src/config.ts:11-16 | loading fails exactly when some required variable is unset or empty, reporting the first in declaration order; on success every field holds its variable's value |
| Config.MountNameIsOptional | src/config.ts:15 | with the three required variables set, loading succeeds whatever the mount name, and an empty mount name is kept as "" |
| Mount.CheckBucketMount | src/index.ts:66-85 | the mount is used exactly when its name is non-empty, the root probes as a directory and the object probes as present; mounted paths are under `/function/storage/<mount>/`; nothing is probed without a name, and the object only after the root passed |
| Mount.MountedPathsUnderStorage | src/index.ts:76-82 | both mounted paths start with `/function/storage/` |
| Transfer.ProgressDivisor | src/index.ts:105 | the progress divisor is the content length when present and non-zero, 1 otherwise, never 0 |
| Transfer.DownloadOutcome | src/index.ts:99-125 | a download passes exactly when there is a body, the destination accepts writes and the stream finishes; a missing body is reported first, then a refused write, then a broken read |
| Transfer.DownloadFile | src/index.ts:98-129 | a missing body fails before anything is written; a refused write fails with nothing said about the file; otherwise the file is the in-order concatenation of the chunks and the counter is their total length, after a finish or a broken read; each progress value adds one chunk's length; only a finished stream settles |
| Encoder.EncoderArgs | src/index.ts:136-155 | the command line has 18 arguments, with the input path after `-i` and the output path last |
| Encoder.OnlyPathsVary | src/index.ts:136-155 | two command lines differ at most in the input and output positions |
| Encoder.ExitResult | src/index.ts:157-171 | the encoder succeeds exactly when the process closed with code 0; a spawn error and any other code (or none) fail, carrying the code |
| Encoder.RelayChunk | src/index.ts:161-165 | a relayed chunk is unchanged exactly when it holds a newline anywhere, and otherwise gains one trailing newline; the output always holds a newline |
| Encoder.RelayWrites | src/index.ts:161-165 | one write per stderr chunk, in order, each the relayed chunk |
| Encoder.RelayedLineBreaks | src/index.ts:161-165 | the relayed output holds at least as many newlines as there were chunks |
| Encoder.RelayedLength | src/index.ts:161-165 | the relayed output is as long as the chunks plus one for each chunk without a newline |
| Events.MessageList | src/index.ts:23 | an array `messages` is visited whole, in array order; a missing or non-array `messages` gives no messages to visit |
| Events.Qualifies | src/index.ts:25-32 | the loop's condition; `Events.SelectedExactly` shows that a message's target is selected exactly when it holds |
| Events.Selected | src/index.ts:24-35 | the targets of the qualifying messages in order, at most one per message |
| Events.SelectedAppend | src/index.ts:24-35 | selection distributes over concatenation, so message order is kept |
| Events.SelectedStep | src/index.ts:24-35 | one more message adds its own target, if any, at the end |
| Events.SelectedPrefix | src/index.ts:24-35 | the selection of a prefix of the messages is a prefix of the whole selection |
| Events.SelectedExactly | src/index.ts:25-33 | a message's target is selected if and only if the message qualifies (object-creation type, non-empty bucket and object) |
| Events.OtherEventTypesSelectNothing | src/index.ts:26-28 | messages of any other event type select nothing |
| Pipeline.LayoutFor | src/index.ts:40-51 | remote mode exactly when the mount plan is remote; then the `/tmp/` paths of the work and result names, otherwise the mounted paths; the result key is the prefix plus the result name |
| Pipeline.Perform | src/index.ts:46-63 | the trace is always a prefix of the full step sequence, all of it exactly when the run passes; the run passes exactly when the encoder succeeds and, in remote mode, the download and the upload do; a failing run ends with the step that raised the failure |
| Pipeline.Action | src/index.ts:39-64 | `action`: the steps for the layout its id and the mount plan give; its contract is stated by `Pipeline.ActionTrace` |
| Pipeline.ActionTrace | src/index.ts:39-64 | an object's trace is a prefix of the full step sequence for its layout, all of it exactly when the run passes; a run passes exactly when the steps it needs succeed; in mounted mode no store call is made |
| Pipeline.MountedModeMakesNoStoreCalls | src/index.ts:53-61 | in mounted mode no download or upload is attempted, whatever happens |
| Pipeline.RemoteModeStoreCalls | src/index.ts:53-63 | a passing remote run downloads the object to the work path, encodes, uploads the result path under the result key in the same bucket, and reports the object done |
| Pipeline.EncoderFailureStopsPipeline | src/index.ts:57-63 | when the encoder is reached and fails, the run fails with its error, ends with the encoding, and neither uploads nor reports done |
| Pipeline.DownloadFailureStopsPipeline | src/index.ts:53-57 | a failed download fails the run with the download's error after the download step alone |
| Pipeline.UploadFailureStopsPipeline | src/index.ts:59-63 | a failed upload fails the run after the download, encode and upload steps, and the object is not reported done |
| Pipeline.RemoteLayout | src/index.ts:40-51 | without a mount, `dir/stem.ext` works at `/tmp/stem.ext` and `/tmp/stem.webm` under key prefix + `stem.webm` |
| Pipeline.RemoteScenario | src/index.ts:39-63 | without a mount, with a whole body, exit code 0 and a successful upload, the run is Download, Encode, Upload, Done and passes |
| Pipeline.MountedScenario | src/index.ts:46-63 | with a usable mount and exit code 0 the run is Encode on the mounted paths, then Done, and passes |
| Pipeline.EncoderExitOneScenario | src/index.ts:57-63 | exit code 1 fails the run with that code and no upload |
| Pipeline.EmptyMountNameGoesRemote | src/index.ts:67 | an empty mount name loads successfully, yet nothing is probed and the plan is remote |
| Pipeline.OtherEventBatchRunsNothing | src/index.ts:23-34 | a batch of other event types selects no object |
| Pipeline.Dispatch | src/index.ts:24-35 | the loop runs the pipeline for the selected objects in order, each run given its position in the batch; the objects run are a prefix of the selection, every run but the last passed, and the batch passes exactly when every selected object ran and passed |
| Pipeline.Handler | src/index.ts:22-37 | `handler`: the `k`-th run is `action` (through `Pipeline.Turn`) for the `k`-th selected bucket and object, in the world as it stands at that run's turn, with the abort-on-first-failure batch semantics of the loop |

## Left out

- The S3 client, `GetObjectCommand` and `PutObjectCommand` are foreign SDK
  calls. A download is its response value and an upload is a success flag.
  The read stream that feeds the upload is not modelled.
- The store's response is always a response. A rejected `client.send` at
  `src/index.ts:98` (missing key, access denied, network failure) also
  aborts the object. In the model it can only appear as a response
  without a body, which fails the download with `NoBody`.
- `stat`, `createWriteStream`, `createReadStream` and `file.close` are
  filesystem I/O.
  - Probe results are given by a function.
  - Local file contents appear only as the download's written bytes.
  - The write stream has no `error` listener, so a failed open or write
    is an unhandled `error` event. That is an uncaught exception that
    aborts the object. The model has one flag per destination path: a
    destination that refuses writes fails the download with `WriteFailed`.
    The model does not say at which chunk the failure strikes, or how many
    bytes reached the file.
  - Whether a refused write or a broken read is reported first depends on
    event timing in the code. The model reports the refused write.
- `spawn` and the subprocess event lifecycle are left out. In the code a
  failure is thrown inside an event callback and the promise's reject is
  never called. That makes a failure an uncaught exception, not a rejected
  promise. The model treats it as an abort of the object: a failed `Run`.
- The `setInterval` progress timer, its one-second period and the
  `toFixed(2)` percentage involve timers and floating point.
  - Only the integer divisor and the byte counter values the timer can
    observe are kept.
  - When a read fails, the code neither clears the timer nor closes the
    file. The model records this as `settled == false`.
- The log lines written with `console.log` are text output with no effect
  on the pipeline. Only `Done` (the completion line) is a trace effect.
- The decoding of stderr chunks from bytes to text is left out. Chunks are
  strings, and the newline test is on characters.
- The encoder's fixed arguments, the scale expression among them, are
  kept as constants. Their meaning to the encoder is not modelled.
- Messages inside `event.messages` that are `null` are not modelled: the
  types declare every element as an object.
- Pipeline.Handler: the world each run sees is an input per run. The
  model does not derive it from what earlier runs did (a file left under
  `/tmp/`, an object stored under a shared result key), so it promises
  nothing about how the runs of one batch affect each other.
- The handler's `_ctx` argument is unused by the code and is not
  modelled. The handler receives the configuration already loaded,
  because a failed load stops the module before any handler runs.
