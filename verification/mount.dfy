/** The bucket-mount decision (`checkBucketMount`, src/index.ts:66-85):
    work directly on a locally mounted copy of the bucket when a mount
    name is configured, the mount root is a directory and the object is
    present under it; otherwise transfer through the object store. The
    filesystem is an input: `stat` gives the probe result for a path. */
module Mount {
  import opened Wrappers

  /** What `stat(path).catch(() => null)` yields: nothing for a missing
      path or any other error, or an entry that is or is not a directory. */
  datatype Probe = Unavailable | Entry(isDirectory: bool)

  /** The I/O strategy: remote transfer, or the two mounted paths. */
  datatype Plan = Remote | Mounted(workFile: string, resFile: string)

  /** The plan together with the paths probed to reach it, in order. */
  datatype Decision = Decision(plan: Plan, probed: seq<string>)

  const StorageDir: string := "/function/storage/"

  /** JavaScript truthiness of `config.bucketMountName`. */
  predicate MountConfigured(mountName: Option<string>)
  {
    mountName.Some? && mountName.value != ""
  }

  function MountRoot(mountName: string): string
  {
    StorageDir + mountName
  }

  /** Where the object appears under the mount. */
  function MountedObjectPath(mountName: string, objectId: string): string
  {
    MountRoot(mountName) + "/" + objectId
  }

  /** Where the result is written under the mount. */
  function MountedResultPath(mountName: string, resultPrefix: string, resName: string): string
  {
    MountRoot(mountName) + "/" + resultPrefix + resName
  }

  /** `checkBucketMount(objectId, resFileName)`. The mount is used exactly
      when it is configured, its root probes as a directory and the object
      probes as present (of any kind); no probe failure escapes. Nothing is
      probed when no mount is configured, and the object is probed only
      after the root passed. */
  function CheckBucketMount(mountName: Option<string>, resultPrefix: string, objectId: string,
                            resName: string, stat: string -> Probe): (d: Decision)
    ensures d.plan.Mounted? <==>
              && MountConfigured(mountName)
              && stat(MountRoot(mountName.value)) == Entry(true)
              && stat(MountedObjectPath(mountName.value, objectId)).Entry?
    ensures d.plan.Mounted? ==>
              && d.plan.workFile == MountedObjectPath(mountName.value, objectId)
              && d.plan.resFile == MountedResultPath(mountName.value, resultPrefix, resName)
    ensures !MountConfigured(mountName) ==> d.probed == []
    ensures MountConfigured(mountName) ==>
              && 1 <= |d.probed| <= 2
              && d.probed[0] == MountRoot(mountName.value)
              && (|d.probed| == 2 <==> stat(MountRoot(mountName.value)) == Entry(true))
              && (|d.probed| == 2 ==> d.probed[1] == MountedObjectPath(mountName.value, objectId))
  {
    if mountName.None? || mountName.value == "" then Decision(Remote, [])
    else
      var name := mountName.value;
      var root := MountRoot(name);
      var bucketMount := stat(root);
      if bucketMount.Unavailable? || !bucketMount.isDirectory then Decision(Remote, [root])
      else
        var target := MountedObjectPath(name, objectId);
        var targetFile := stat(target);
        if targetFile.Entry? then
          Decision(Mounted(target, MountedResultPath(name, resultPrefix, resName)), [root, target])
        else
          Decision(Remote, [root, target])
  }

  /** Both mounted paths lie under the storage directory. */
  lemma MountedPathsUnderStorage(mountName: string, resultPrefix: string, objectId: string, resName: string)
    ensures var p := MountedObjectPath(mountName, objectId);
            |p| >= |StorageDir| && p[..|StorageDir|] == StorageDir
    ensures var p := MountedResultPath(mountName, resultPrefix, resName);
            |p| >= |StorageDir| && p[..|StorageDir|] == StorageDir
  {
    assert MountedObjectPath(mountName, objectId) == StorageDir + (mountName + "/" + objectId);
    assert MountedResultPath(mountName, resultPrefix, resName)
        == StorageDir + (mountName + "/" + resultPrefix + resName);
  }
}
