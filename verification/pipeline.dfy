/** The per-object pipeline (`action`, src/index.ts:39-64) and the batch
    dispatcher (`handler`, src/index.ts:22-37). The filesystem probes, the
    object store and the encoder process are the `World` the pipeline runs
    in; what the pipeline does to them is recorded as a trace of effects. */
module Pipeline {
  import opened Wrappers
  import opened Config
  import opened Naming
  import opened Mount
  import opened Transfer
  import opened Encoder
  import opened Events

  /** Everything outside the process: the probe result for each path, the
      store's response for each bucket and key, whether a local path
      accepts the download's writes, the process that spawning an
      executable with arguments starts, and whether storing a local file
      under a bucket and key succeeds. */
  datatype World = World(
    stat: string -> Probe,
    getObject: (string, string) -> GetObjectOutput,
    writable: string -> bool,
    spawn: (string, seq<string>) -> Process,
    putObject: (string, string, string) -> bool)

  /** One externally visible step of the pipeline, recorded when it is
      attempted. */
  datatype Effect =
    | Download(bucket: string, key: string, dest: string)
    | Encode(input: string, output: string)
    | Upload(bucket: string, key: string, source: string)
    | Done(objectId: string)

  datatype Failure =
    | DownloadFailed(download: DownloadError)
    | EncodeFailed(encode: EncodeError)
    | UploadFailed

  /** The steps one object's pipeline attempted, in order, and how it ended. */
  datatype Run = Run(effects: seq<Effect>, outcome: Outcome<Failure>)

  /** The plan `checkBucketMount` yields for `objectId`. */
  function PlanFor(cfg: Config, w: World, objectId: string): Plan
  {
    CheckBucketMount(cfg.bucketMountName, cfg.resultPrefix, objectId, ResultName(objectId), w.stat).plan
  }

  /** Where one object's pipeline works: whether it transfers through the
      store, the encoder's input and output paths, and the key the result
      is stored under in remote mode. */
  datatype Layout = Layout(remote: bool, workPath: string, resPath: string, resultKey: string)

  /** The paths `action` settles on before its first step: the `/tmp/`
      paths named after the object in remote mode, the mounted paths
      otherwise; the result key is the prefix plus the result name. */
  function LayoutFor(cfg: Config, w: World, objectId: string): (l: Layout)
    ensures l.remote <==> PlanFor(cfg, w, objectId).Remote?
    ensures l.remote ==> l.workPath == TmpPath(WorkName(objectId)) && l.resPath == TmpPath(ResultName(objectId))
    ensures !l.remote ==> Mounted(l.workPath, l.resPath) == PlanFor(cfg, w, objectId)
    ensures l.resultKey == cfg.resultPrefix + ResultName(objectId)
  {
    var workFileName := WorkName(objectId);
    var resFileName := ResultName(objectId);
    var useBucketMount := CheckBucketMount(cfg.bucketMountName, cfg.resultPrefix, objectId, resFileName, w.stat).plan;
    if useBucketMount.Mounted? then
      Layout(false, useBucketMount.workFile, useBucketMount.resFile, cfg.resultPrefix + resFileName)
    else
      Layout(true, TmpPath(workFileName), TmpPath(resFileName), cfg.resultPrefix + resFileName)
  }

  /** The full step sequence of `action`: in remote mode download to the
      work path, encode, upload the result and report; in mounted mode
      encode and report, with no store call. */
  function CompleteTrace(bucket: string, objectId: string, l: Layout): seq<Effect>
  {
    if l.remote then
      [Download(bucket, objectId, l.workPath), Encode(l.workPath, l.resPath),
       Upload(bucket, l.resultKey, l.resPath), Done(objectId)]
    else
      [Encode(l.workPath, l.resPath), Done(objectId)]
  }

  /** Whether `e` is the step a failure `f` is raised by. */
  predicate RaisedBy(f: Failure, e: Effect)
  {
    match f
    case DownloadFailed(_) => e.Download?
    case EncodeFailed(_) => e.Encode?
    case UploadFailed => e.Upload?
  }

  /** The steps of `action` once its layout is fixed. Every step depends
      on the one before: the trace is always a prefix of the complete
      trace, it is the whole of it exactly when the run passes, and a
      failing run stops right after the step that raised the failure. The
      run passes exactly when every step it needs succeeds: the download
      and the upload in remote mode, and the encoder in both modes. */
  function Perform(w: World, bucket: string, objectId: string, l: Layout): (run: Run)
    ensures run.effects <= CompleteTrace(bucket, objectId, l)
    ensures run.outcome.Pass? <==> run.effects == CompleteTrace(bucket, objectId, l)
    ensures run.outcome.Pass? <==>
              && (l.remote ==> DownloadOutcome(w.getObject(bucket, objectId), w.writable(l.workPath)).Pass?)
              && ExitResult(w.spawn(Executable, EncoderArgs(l.workPath, l.resPath))).Pass?
              && (l.remote ==> w.putObject(bucket, l.resultKey, l.resPath))
    ensures run.outcome.Fail? ==>
              |run.effects| > 0 && RaisedBy(run.outcome.error, run.effects[|run.effects| - 1])
  {
    var downloadSteps := if l.remote then [Download(bucket, objectId, l.workPath)] else [];
    var downloaded := if l.remote then DownloadOutcome(w.getObject(bucket, objectId), w.writable(l.workPath)) else Pass;
    if downloaded.Fail? then Run(downloadSteps, Fail(DownloadFailed(downloaded.error)))
    else
      var encodeSteps := downloadSteps + [Encode(l.workPath, l.resPath)];
      var encoded := ExitResult(w.spawn(Executable, EncoderArgs(l.workPath, l.resPath)));
      if encoded.Fail? then Run(encodeSteps, Fail(EncodeFailed(encoded.error)))
      else
        var uploadSteps := encodeSteps + (if l.remote then [Upload(bucket, l.resultKey, l.resPath)] else []);
        var uploaded := !l.remote || w.putObject(bucket, l.resultKey, l.resPath);
        if !uploaded then Run(uploadSteps, Fail(UploadFailed))
        else Run(uploadSteps + [Done(objectId)], Pass)
  }

  /** `action(bucketId, objectId)`. */
  function Action(cfg: Config, w: World, bucket: string, objectId: string): Run
  {
    Perform(w, bucket, objectId, LayoutFor(cfg, w, objectId))
  }

  /** What `action` does for one object: its trace is a prefix of the full
      step sequence for the layout its id and the mount plan give, all of
      it exactly when the run passes; a run passes exactly when the steps
      it needs succeed; in mounted mode no store call is made. */
  lemma ActionTrace(cfg: Config, w: World, bucket: string, objectId: string)
    ensures var run := Action(cfg, w, bucket, objectId);
            var l := LayoutFor(cfg, w, objectId);
            && run.effects <= CompleteTrace(bucket, objectId, l)
            && (run.outcome.Pass? <==> run.effects == CompleteTrace(bucket, objectId, l))
            && (run.outcome.Pass? <==>
                  && (l.remote ==> DownloadOutcome(w.getObject(bucket, objectId), w.writable(l.workPath)).Pass?)
                  && ExitResult(w.spawn(Executable, EncoderArgs(l.workPath, l.resPath))).Pass?
                  && (l.remote ==> w.putObject(bucket, l.resultKey, l.resPath)))
            && (PlanFor(cfg, w, objectId).Mounted? ==> forall e :: e in run.effects ==> !e.Download? && !e.Upload?)
  {
    var l := LayoutFor(cfg, w, objectId);
    if !l.remote {
      MountedModeMakesNoStoreCalls(w, bucket, objectId, l);
    }
  }

  /** In mounted mode the store is never called, whatever happens. */
  lemma MountedModeMakesNoStoreCalls(w: World, bucket: string, objectId: string, l: Layout)
    requires !l.remote
    ensures forall e :: e in Perform(w, bucket, objectId, l).effects ==> !e.Download? && !e.Upload?
  {
    var run := Perform(w, bucket, objectId, l);
    var full := CompleteTrace(bucket, objectId, l);
    forall e | e in run.effects
      ensures !e.Download? && !e.Upload?
    {
      var i :| 0 <= i < |run.effects| && run.effects[i] == e;
      assert full[i] == e;
    }
  }

  /** In remote mode a run that passes makes exactly two store calls:
      first it downloads the object to the work path, and after encoding
      it uploads the result path under the result key in the same bucket;
      the fourth and last step reports the object done. */
  lemma RemoteModeStoreCalls(w: World, bucket: string, objectId: string, l: Layout)
    requires l.remote
    requires Perform(w, bucket, objectId, l).outcome.Pass?
    ensures var effects := Perform(w, bucket, objectId, l).effects;
            && |effects| == 4
            && effects[0] == Download(bucket, objectId, l.workPath)
            && effects[1] == Encode(l.workPath, l.resPath)
            && effects[2] == Upload(bucket, l.resultKey, l.resPath)
            && effects[3] == Done(objectId)
  {
  }

  /** A failing encoder stops the pipeline: when the encoder is reached
      (the download passed, or the mount is used) and its process fails,
      the run fails with that encoder error, its last step is the encoding
      and nothing is uploaded or reported done. */
  lemma EncoderFailureStopsPipeline(w: World, bucket: string, objectId: string, l: Layout)
    requires l.remote ==> DownloadOutcome(w.getObject(bucket, objectId), w.writable(l.workPath)).Pass?
    requires ExitResult(w.spawn(Executable, EncoderArgs(l.workPath, l.resPath))).Fail?
    ensures var run := Perform(w, bucket, objectId, l);
            && run.outcome == Fail(EncodeFailed(ExitResult(w.spawn(Executable, EncoderArgs(l.workPath, l.resPath))).error))
            && run.effects[|run.effects| - 1] == Encode(l.workPath, l.resPath)
            && forall e :: e in run.effects ==> !e.Upload? && !e.Done?
  {
    var run := Perform(w, bucket, objectId, l);
    assert run.effects == if l.remote then [Download(bucket, objectId, l.workPath), Encode(l.workPath, l.resPath)]
                          else [Encode(l.workPath, l.resPath)];
  }

  /** A failing download stops the pipeline before the encoder: the run
      fails with the download's error and holds the download step only. */
  lemma DownloadFailureStopsPipeline(w: World, bucket: string, objectId: string, l: Layout)
    requires l.remote
    requires DownloadOutcome(w.getObject(bucket, objectId), w.writable(l.workPath)).Fail?
    ensures Perform(w, bucket, objectId, l) ==
              Run([Download(bucket, objectId, l.workPath)],
                  Fail(DownloadFailed(DownloadOutcome(w.getObject(bucket, objectId), w.writable(l.workPath)).error)))
  {
  }

  /** A failing upload fails the run after the upload step: the result
      is not reported done. */
  lemma UploadFailureStopsPipeline(w: World, bucket: string, objectId: string, l: Layout)
    requires l.remote
    requires DownloadOutcome(w.getObject(bucket, objectId), w.writable(l.workPath)).Pass?
    requires ExitResult(w.spawn(Executable, EncoderArgs(l.workPath, l.resPath))).Pass?
    requires !w.putObject(bucket, l.resultKey, l.resPath)
    ensures var run := Perform(w, bucket, objectId, l);
            && run.outcome == Fail(UploadFailed)
            && run.effects == [Download(bucket, objectId, l.workPath), Encode(l.workPath, l.resPath),
                               Upload(bucket, l.resultKey, l.resPath)]
            && forall e :: e in run.effects ==> !e.Done?
  {
  }

  /** Scenario: no mount configured, object `dir/stem.ext`, the body
      arrives whole, the encoder exits 0 and the upload succeeds. The run
      downloads to `/tmp/stem.ext`, encodes to `/tmp/stem.webm`, uploads
      under the prefix plus `stem.webm` in the same bucket, and is done. */
  lemma RemoteScenario(cfg: Config, w: World, bucket: string, dir: string, stem: string, ext: string)
    requires !MountConfigured(cfg.bucketMountName)
    requires '/' !in stem && '/' !in ext && '.' !in ext
    requires var objectId := dir + "/" + stem + "." + ext;
             DownloadOutcome(w.getObject(bucket, objectId), w.writable(TmpPath(stem + "." + ext))).Pass?
    requires w.spawn(Executable, EncoderArgs(TmpPath(stem + "." + ext), TmpPath(stem + TargetExtension))).Closed?
    requires w.spawn(Executable, EncoderArgs(TmpPath(stem + "." + ext), TmpPath(stem + TargetExtension))).code == Some(0)
    requires w.putObject(bucket, cfg.resultPrefix + stem + TargetExtension, TmpPath(stem + TargetExtension))
    ensures var objectId := dir + "/" + stem + "." + ext;
            Action(cfg, w, bucket, objectId) == Run(
              [Download(bucket, objectId, TmpPath(stem + "." + ext)),
               Encode(TmpPath(stem + "." + ext), TmpPath(stem + TargetExtension)),
               Upload(bucket, cfg.resultPrefix + stem + TargetExtension, TmpPath(stem + TargetExtension)),
               Done(objectId)],
              Pass)
  {
    var objectId := dir + "/" + stem + "." + ext;
    var l := Layout(true, TmpPath(stem + "." + ext), TmpPath(stem + TargetExtension),
                    cfg.resultPrefix + stem + TargetExtension);
    RemoteLayout(cfg, w, dir, stem, ext);
    assert Action(cfg, w, bucket, objectId) == Perform(w, bucket, objectId, l);
  }

  /** The layout of an unmounted object `dir/stem.ext`. */
  lemma RemoteLayout(cfg: Config, w: World, dir: string, stem: string, ext: string)
    requires !MountConfigured(cfg.bucketMountName)
    requires '/' !in stem && '/' !in ext && '.' !in ext
    ensures LayoutFor(cfg, w, dir + "/" + stem + "." + ext)
         == Layout(true, TmpPath(stem + "." + ext), TmpPath(stem + TargetExtension),
                   cfg.resultPrefix + stem + TargetExtension)
  {
    var objectId := dir + "/" + stem + "." + ext;
    DerivedNames(dir, stem, ext);
    assert PlanFor(cfg, w, objectId) == Remote;
    var l := LayoutFor(cfg, w, objectId);
    assert l.remote;
    assert l.workPath == TmpPath(stem + "." + ext);
    assert l.resPath == TmpPath(stem + TargetExtension);
    assert l.resultKey == cfg.resultPrefix + (stem + TargetExtension);
  }

  /** Scenario: the mount is configured, its root is a directory and the
      object is present under it; the encoder exits 0. The run encodes the
      mounted object to the mounted result path and is done, with no store
      call. */
  lemma MountedScenario(cfg: Config, w: World, bucket: string, objectId: string)
    requires MountConfigured(cfg.bucketMountName)
    requires w.stat(MountRoot(cfg.bucketMountName.value)) == Entry(true)
    requires w.stat(MountedObjectPath(cfg.bucketMountName.value, objectId)).Entry?
    requires var name := cfg.bucketMountName.value;
             ExitResult(w.spawn(Executable, EncoderArgs(MountedObjectPath(name, objectId),
                                             MountedResultPath(name, cfg.resultPrefix, ResultName(objectId))))).Pass?
    ensures var name := cfg.bucketMountName.value;
            Action(cfg, w, bucket, objectId) == Run(
              [Encode(MountedObjectPath(name, objectId), MountedResultPath(name, cfg.resultPrefix, ResultName(objectId))),
               Done(objectId)],
              Pass)
  {
  }

  /** Scenario: the encoder exits with code 1. The run fails carrying code
      1 and no upload is attempted. */
  lemma EncoderExitOneScenario(cfg: Config, w: World, bucket: string, objectId: string, stderr: seq<string>)
    requires PlanFor(cfg, w, objectId).Remote?
    requires DownloadOutcome(w.getObject(bucket, objectId), w.writable(TmpPath(WorkName(objectId)))).Pass?
    requires w.spawn(Executable, EncoderArgs(TmpPath(WorkName(objectId)), TmpPath(ResultName(objectId)))) == Closed(stderr, Some(1))
    ensures Action(cfg, w, bucket, objectId).outcome == Fail(EncodeFailed(ExitStatus(Some(1))))
    ensures forall e :: e in Action(cfg, w, bucket, objectId).effects ==> !e.Upload?
  {
    EncoderFailureStopsPipeline(w, bucket, objectId, LayoutFor(cfg, w, objectId));
  }

  /** An empty mount name passes start-up but counts as no mount: the
      pipeline probes nothing and goes remote. */
  lemma EmptyMountNameGoesRemote(env: Env, w: World, objectId: string)
    requires LoadConfig(env).Success?
    requires BucketMountNameKey in env && env[BucketMountNameKey] == ""
    ensures var cfg := LoadConfig(env).value;
            && cfg.bucketMountName == Some("")
            && PlanFor(cfg, w, objectId) == Remote
            && CheckBucketMount(cfg.bucketMountName, cfg.resultPrefix, objectId, ResultName(objectId), w.stat).probed == []
  {
    LoadConfigChecksInOrder(env);
  }

  /** The loop of `handler` over a message list, for any pipeline `act`
      given the run's position in the batch and its target: run `act` for
      each qualifying message in order. A failing run is not caught, so it
      ends the batch: the objects run are a prefix of the selected ones,
      every run but the last passed, and the batch passes exactly when
      every selected object ran and passed. */
  method Dispatch(ms: seq<Message>, act: (nat, Target) -> Run)
    returns (invoked: seq<Target>, runs: seq<Run>, outcome: Outcome<Failure>)
    ensures invoked <= Selected(ms)
    ensures |runs| == |invoked|
    ensures forall i :: 0 <= i < |invoked| ==> runs[i] == act(i, invoked[i])
    ensures forall i :: 0 <= i < |runs| - 1 ==> runs[i].outcome.Pass?
    ensures outcome.Pass? <==> invoked == Selected(ms) && forall i :: 0 <= i < |runs| ==> runs[i].outcome.Pass?
    ensures outcome.Fail? ==> |runs| > 0 && runs[|runs| - 1].outcome == outcome
  {
    invoked := [];
    runs := [];
    var i := 0;
    while i < |ms|
      invariant 0 <= i <= |ms|
      invariant invoked == Selected(ms[..i])
      invariant |runs| == |invoked|
      invariant forall k :: 0 <= k < |invoked| ==> runs[k] == act(k, invoked[k])
      invariant forall k :: 0 <= k < |runs| ==> runs[k].outcome.Pass?
    {
      var message := ms[i];
      SelectedStep(ms, i);
      if Qualifies(message) {
        var target := TargetOf(message);
        var run := act(|runs|, target);
        RunsAppend(invoked, runs, act, target, run);
        invoked := invoked + [target];
        runs := runs + [run];
        if run.outcome.Fail? {
          SelectedPrefix(ms, i + 1);
          assert invoked == Selected(ms[..i + 1]);
          assert runs[|runs| - 1] == run;
          assert !(forall k :: 0 <= k < |runs| ==> runs[k].outcome.Pass?);
          return invoked, runs, run.outcome;
        }
      }
      i := i + 1;
    }
    assert ms[..i] == ms;
    outcome := Pass;
  }

  /** Recording one more run keeps each recorded run the result of `act`
      at its own position and target. */
  lemma RunsAppend(invoked: seq<Target>, runs: seq<Run>, act: (nat, Target) -> Run, target: Target, run: Run)
    requires |runs| == |invoked|
    requires forall k :: 0 <= k < |invoked| ==> runs[k] == act(k, invoked[k])
    requires run == act(|runs|, target)
    ensures forall k :: 0 <= k < |invoked + [target]| ==> (runs + [run])[k] == act(k, (invoked + [target])[k])
  {
  }

  /** The `k`-th run of a batch: `action` for the target, in the world as
      it stands at that run's turn. */
  function Turn(cfg: Config, worlds: nat -> World, k: nat, t: Target): Run
  {
    Action(cfg, worlds(k), t.bucketId, t.objectId)
  }

  /** `handler(event)`: the loop runs only over an array of messages, and
      the `k`-th run is the pipeline `action` for a selected bucket and
      object in `worlds(k)`, the filesystem, store and encoder as they
      stand when that run starts (a run sees what earlier runs left
      behind, such as files under `/tmp/`). */
  method Handler(event: HandlerEvent, cfg: Config, worlds: nat -> World)
    returns (invoked: seq<Target>, runs: seq<Run>, outcome: Outcome<Failure>)
    ensures invoked <= Selected(MessageList(event))
    ensures |runs| == |invoked|
    ensures forall i :: 0 <= i < |invoked| ==> runs[i] == Turn(cfg, worlds, i, invoked[i])
    ensures forall i :: 0 <= i < |runs| - 1 ==> runs[i].outcome.Pass?
    ensures outcome.Pass? <==> invoked == Selected(MessageList(event)) && forall i :: 0 <= i < |runs| ==> runs[i].outcome.Pass?
    ensures outcome.Fail? ==> |runs| > 0 && runs[|runs| - 1].outcome == outcome
  {
    var act := (k: nat, t: Target) => Turn(cfg, worlds, k, t);
    invoked, runs, outcome := Dispatch(MessageList(event), act);
    assert forall i :: 0 <= i < |invoked| ==> runs[i] == Turn(cfg, worlds, i, invoked[i]);
  }

  /** A batch whose messages all carry another event type runs nothing. */
  lemma OtherEventBatchRunsNothing(event: HandlerEvent)
    requires var ms := MessageList(event);
             forall i :: 0 <= i < |ms| ==>
               ms[i].eventMetadata.Some? && ms[i].eventMetadata.value.eventType != Some(ObjectCreate)
    ensures Selected(MessageList(event)) == []
  {
    OtherEventTypesSelectNothing(MessageList(event));
  }
}
