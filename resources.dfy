/**
 * The part of the file system the facade looks at: which paths exist and when
 * each was last modified. Reading the disk itself is not part of this model;
 * a Disk value is the state of the disk at the moment of a call.
 */
module Resources {
  import opened Common

  /** Name of the lexicon artifact inside a resource directory. */
  const LexiconName: string := "lexicon"
  /** Name of the model artifact inside a resource directory. */
  const ModelName: string := "model"

  /** Each existing file or directory, with its last-modification time. */
  datatype Disk = Disk(entries: map<string, int>) {

    predicate Exists(path: string) { path in entries }

    /** File.lastModified(): the stamp of the path, or 0 when it does not exist. */
    function LastModified(path: string): int {
      if path in entries then entries[path] else 0
    }

    /** The same disk after the file at path was written at time stamp. */
    function Touch(path: string, stamp: int): (d: Disk)
      ensures d.Exists(path) && d.LastModified(path) == stamp
      ensures forall p :: p != path ==> d.Exists(p) == Exists(p) && d.LastModified(p) == LastModified(p)
    {
      Disk(entries[path := stamp])
    }

    /** The same disk after the file at path was deleted. */
    function Delete(path: string): (d: Disk)
      ensures !d.Exists(path) && d.LastModified(path) == 0
      ensures forall p :: p != path ==> d.Exists(p) == Exists(p) && d.LastModified(p) == LastModified(p)
    {
      Disk(entries - {path})
    }
  }

  /** The path of name inside dir, without the normalisation java.io.File applies. */
  function Join(dir: string, name: string): string {
    dir + "/" + name
  }

  function LexiconPath(dir: string): string { Join(dir, LexiconName) }

  function ModelPath(dir: string): string { Join(dir, ModelName) }

  /** What getClassifier requires to exist, in the order it checks them. */
  function Required(dir: string): seq<(Artifact, string)> {
    [(ResourceDirectory, dir), (LexiconArtifact, LexiconPath(dir)), (ModelArtifact, ModelPath(dir))]
  }

  /** The position of the first required artifact that does not exist, if any. */
  function FirstMissing(disk: Disk, required: seq<(Artifact, string)>): (r: Option<nat>)
    ensures r.None? <==> forall i :: 0 <= i < |required| ==> disk.Exists(required[i].1)
    ensures r.Some? ==> r.value < |required| && !disk.Exists(required[r.value].1)
    ensures r.Some? ==> forall i :: 0 <= i < r.value ==> disk.Exists(required[i].1)
  {
    if required == [] then None
    else if !disk.Exists(required[0].1) then Some(0)
    else
      match FirstMissing(disk, required[1..])
      case None => None
      case Some(k) => Some(k + 1)
  }

  /**
   * The outcome of the existence checks of getClassifier: the NotFound error of
   * the first missing artifact, or Pass when all three exist.
   */
  function CheckResources(disk: Disk, dir: string): Outcome {
    match FirstMissing(disk, Required(dir))
    case None => Pass
    case Some(k) => Fail(NotFound(Required(dir)[k].0, Required(dir)[k].1))
  }

  /** The checks pass exactly when the directory, the lexicon and the model all exist. */
  lemma CheckResourcesPass(disk: Disk, dir: string)
    ensures CheckResources(disk, dir).Pass? <==>
              disk.Exists(dir) && disk.Exists(LexiconPath(dir)) && disk.Exists(ModelPath(dir))
  {
    var req := Required(dir);
    if CheckResources(disk, dir).Pass? {
      assert disk.Exists(req[0].1) && disk.Exists(req[1].1) && disk.Exists(req[2].1);
    }
  }

  /** A missing directory is reported first, whatever else is missing. */
  lemma CheckResourcesDirectoryFirst(disk: Disk, dir: string)
    requires !disk.Exists(dir)
    ensures CheckResources(disk, dir) == Fail(NotFound(ResourceDirectory, dir))
  {
  }

  /** With the directory present, a missing lexicon is reported before a missing model. */
  lemma CheckResourcesLexiconSecond(disk: Disk, dir: string)
    requires disk.Exists(dir) && !disk.Exists(LexiconPath(dir))
    ensures CheckResources(disk, dir) == Fail(NotFound(LexiconArtifact, LexiconPath(dir)))
  {
    var req := Required(dir);
    assert req[1].1 == LexiconPath(dir);
  }

  /** With directory and lexicon present, a missing model is reported. */
  lemma CheckResourcesModelLast(disk: Disk, dir: string)
    requires disk.Exists(dir) && disk.Exists(LexiconPath(dir)) && !disk.Exists(ModelPath(dir))
    ensures CheckResources(disk, dir) == Fail(NotFound(ModelArtifact, ModelPath(dir)))
  {
    var req := Required(dir);
    assert req[1].1 == LexiconPath(dir) && req[2].1 == ModelPath(dir);
  }

  /**
   * needsRefreshing: a classifier whose lexicon was stamped `recorded` when it
   * was loaded from dir is stale unless the lexicon on disk carries that stamp.
   */
  function NeedsRefresh(recorded: int, disk: Disk, dir: string): bool {
    recorded != disk.LastModified(LexiconPath(dir))
  }

  /** Rewriting the lexicon with another stamp makes a fresh classifier stale. */
  lemma StaleAfterRewrite(recorded: int, disk: Disk, dir: string, stamp: int)
    requires !NeedsRefresh(recorded, disk, dir)
    requires stamp != disk.LastModified(LexiconPath(dir))
    ensures NeedsRefresh(recorded, disk.Touch(LexiconPath(dir), stamp), dir)
  {
  }

  /**
   * Deleting the lexicon makes the stamp 0, so a classifier loaded from a
   * lexicon with a non-zero stamp reports that it needs refreshing.
   */
  lemma StaleAfterDelete(recorded: int, disk: Disk, dir: string)
    requires recorded != 0
    ensures NeedsRefresh(recorded, disk.Delete(LexiconPath(dir)), dir)
  {
  }

  /** Files other than the lexicon do not affect freshness, the model file included. */
  lemma FreshnessIgnoresOtherFiles(recorded: int, disk: Disk, dir: string, path: string, stamp: int)
    requires path != LexiconPath(dir)
    ensures NeedsRefresh(recorded, disk.Touch(path, stamp), dir) == NeedsRefresh(recorded, disk, dir)
  {
  }
}
