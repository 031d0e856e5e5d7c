/** Names and working paths derived from an object id
    (src/index.ts:40-44): the work name is the last `/`-segment of the
    id, the result name drops that segment's last `.`-component and
    appends `.webm`, and both live under `/tmp/` unless a bucket mount is
    used. */
module Naming {
  import opened Text

  const TargetExtension: string := ".webm"
  const TmpDir: string := "/tmp/"

  /** `objectId.split("/").at(-1)`: the last path segment of the id. */
  function WorkName(objectId: string): (r: string)
    ensures r == AfterLast(objectId, '/')
  {
    var segments := Split(objectId, '/');
    SplitFacts(objectId, '/', segments);
    LastPart(objectId, '/', segments);
    segments[|segments| - 1]
  }

  /** `name.split(".").slice(0, -1).join(".")`: the name without its
      last `.`-component and without that dot. */
  function DropExtension(name: string): (r: string)
    ensures r == BeforeLast(name, '.')
  {
    var parts := Split(name, '.');
    SplitFacts(name, '.', parts);
    LastPart(name, '.', parts);
    Join(parts[..|parts| - 1], '.')
  }

  /** The name of the encoded result for `objectId`. */
  function ResultName(objectId: string): (r: string)
    ensures |r| >= |TargetExtension| && r[|r| - |TargetExtension|..] == TargetExtension
  {
    DropExtension(WorkName(objectId)) + TargetExtension
  }

  /** The local path of a work or result file outside a bucket mount. */
  function TmpPath(name: string): string
  {
    TmpDir + name
  }

  /** Two objects share a `/tmp/` path exactly when they share the name it
      is built from. */
  lemma TmpPathsDistinct(a: string, b: string)
    ensures TmpPath(a) == TmpPath(b) <==> a == b
  {
    if TmpPath(a) == TmpPath(b) {
      assert a == TmpPath(a)[|TmpDir|..];
      assert b == TmpPath(b)[|TmpDir|..];
    }
  }

  /** The work name is the separator-free tail of the id that follows its
      last `/` (or is the whole id when it has none). */
  lemma WorkNameIsLastSegment(objectId: string)
    ensures '/' !in WorkName(objectId)
    ensures |WorkName(objectId)| <= |objectId|
    ensures objectId[|objectId| - |WorkName(objectId)|..] == WorkName(objectId)
    ensures '/' in objectId ==> objectId[|objectId| - |WorkName(objectId)| - 1] == '/'
    ensures '/' !in objectId ==> WorkName(objectId) == objectId
  {
  }

  /** The result name is the work name with its final `.`-component
      replaced by `.webm`; inner dots stay in the stem. */
  lemma ResultNameReplacesExtension(objectId: string)
    requires '.' in WorkName(objectId)
    ensures exists stem, ext :: '.' !in ext && WorkName(objectId) == stem + "." + ext
                                && ResultName(objectId) == stem + TargetExtension
  {
    var w := WorkName(objectId);
    var stem := DropExtension(w);
    Around(w, |stem|);
    var ext := w[|stem| + 1..];
    assert w == stem + "." + ext;
    assert ResultName(objectId) == stem + TargetExtension;
    assert '.' !in ext && w == stem + "." + ext && ResultName(objectId) == stem + TargetExtension;
  }

  /** A last segment without a dot gives the bare result name `.webm`. */
  lemma ExtensionlessResultName(objectId: string)
    requires '.' !in WorkName(objectId)
    ensures ResultName(objectId) == TargetExtension
  {
  }

  /** The result name never holds a `/`, so it names a file directly in
      the result directory. */
  lemma ResultNameHasNoSlash(objectId: string)
    ensures '/' !in ResultName(objectId)
  {
    var name := WorkName(objectId);
    var r := ResultName(objectId);
    assert '/' !in name && r == BeforeLast(name, '.') + TargetExtension;
    SlashFreeResult(name, r);
  }

  /** The step of `ResultNameHasNoSlash` that no longer depends on the id. */
  lemma SlashFreeResult(name: string, r: string)
    requires '/' !in name && r == BeforeLast(name, '.') + TargetExtension
    ensures '/' !in r
  {
    StemKeepsAbsentChars(name, '/');
  }

  /** `s` is its part before position `i`, the character at `i`, and the
      rest. */
  lemma Around(s: string, i: nat)
    requires i < |s|
    ensures s == s[..i] + [s[i]] + s[i + 1..]
  {
  }

  /** Dropping the extension only removes characters. */
  lemma StemKeepsAbsentChars(name: string, c: char)
    requires c !in name
    ensures c !in BeforeLast(name, '.')
    ensures c !in DropExtension(name)
  {
    var stem := BeforeLast(name, '.');
    if '.' in name {
      assert stem == name[..|stem|];
    }
  }

  /** An object id that ends in `/` gives an empty work name, so the
      temporary work path is the bare `/tmp/` directory. */
  lemma TrailingSlashGivesEmptyWorkName(objectId: string)
    requires |objectId| > 0 && objectId[|objectId| - 1] == '/'
    ensures WorkName(objectId) == ""
    ensures TmpPath(WorkName(objectId)) == TmpDir
  {
    var w := WorkName(objectId);
    assert objectId[|objectId| - |w|..] == w;
  }

  /** Two objects whose last segments have no dot share the result name,
      so their results are written to the same key. */
  lemma ExtensionlessNamesCollide(a: string, b: string)
    requires '.' !in WorkName(a) && '.' !in WorkName(b)
    ensures ResultName(a) == ResultName(b)
  {
    ExtensionlessResultName(a);
    ExtensionlessResultName(b);
  }

  /** An id `dir/stem.ext` with a dot-free extension and no `/` after
      `dir` is worked on as `stem.ext` and encoded to `stem.webm`; for
      instance `folder/video.final.mp4` becomes `video.final.webm`. */
  lemma DerivedNames(dir: string, stem: string, ext: string)
    requires '/' !in stem && '/' !in ext && '.' !in ext
    ensures WorkName(dir + "/" + stem + "." + ext) == stem + "." + ext
    ensures ResultName(dir + "/" + stem + "." + ext) == stem + TargetExtension
  {
    var name := stem + "." + ext;
    assert dir + "/" + stem + "." + ext == dir + ['/'] + name;
    assert '/' !in name;
    LastSeparatorAt(dir, '/', name);
    LastSeparatorAt(stem, '.', ext);
  }

}
