/**
 * The TextClassifier facade: resolving a classifier from a resource directory,
 * batch classification, the score interpreter and the freshness check.
 */
module Classification {
  import opened Common
  import opened SortedMap
  import opened Scores
  import opened Resources

  /**
   * A concrete classifier class. Its model loading and its single-document
   * classification live in subclasses that are not part of this model, so both
   * are given as functions: loadModel of the resource directory and lexicon it
   * is handed, and classify of a document once that model is loaded.
   */
  datatype Implementation = Implementation(
    loadModel: (string, Lexicon) -> Outcome,
    classify: Document -> Result<seq<real>>)

  class TextClassifier {
    var lexicon: Lexicon
    var lastModifiedLexicon: int
    var pathResourceDirectory: string
    /** The subclass this instance belongs to. */
    const implementation: Implementation

    /**
     * The no-argument constructor that newInstance runs: stamp 0, and an empty
     * lexicon and directory standing for the null that Java leaves in them.
     */
    constructor (implementation: Implementation)
      ensures this.implementation == implementation
      ensures lexicon == Lexicon([], "")
      ensures lastModifiedLexicon == 0
      ensures pathResourceDirectory == ""
    {
      this.implementation := implementation;
      lexicon := Lexicon([], "");
      lastModifiedLexicon := 0;
      pathResourceDirectory := "";
    }

    /**
     * getClassifier: checks that the directory, the lexicon and the model exist,
     * in that order, failing on the first one missing before anything is built;
     * reads the lexicon, instantiates the class it names (registry stands for
     * Class.forName), records the lexicon's stamp, the directory and the
     * lexicon in the new instance and lets it load its model.
     */
    static method GetClassifier(disk: Disk, dir: string, readLexicon: string -> Result<Lexicon>,
                                registry: map<string, Implementation>)
      returns (r: Result<TextClassifier>)
      ensures CheckResources(disk, dir).Fail? ==> r == Failure(CheckResources(disk, dir).error)
      ensures CheckResources(disk, dir).Pass? && readLexicon(LexiconPath(dir)).Failure? ==>
                r == Failure(readLexicon(LexiconPath(dir)).error)
      ensures CheckResources(disk, dir).Pass? && readLexicon(LexiconPath(dir)).Success? ==>
                var lex := readLexicon(LexiconPath(dir)).value;
                (lex.classifierType !in registry ==> r == Failure(UnknownClassifier(lex.classifierType))) &&
                (lex.classifierType in registry && registry[lex.classifierType].loadModel(dir, lex).Fail? ==>
                   r == Failure(registry[lex.classifierType].loadModel(dir, lex).error)) &&
                (lex.classifierType in registry && registry[lex.classifierType].loadModel(dir, lex).Pass? ==>
                   r.Success? &&
                   r.value.implementation == registry[lex.classifierType] &&
                   r.value.lexicon == lex &&
                   r.value.pathResourceDirectory == dir &&
                   r.value.lastModifiedLexicon == disk.LastModified(LexiconPath(dir)))
      ensures r.Success? ==> !NeedsRefresh(r.value.lastModifiedLexicon, disk, r.value.pathResourceDirectory)
      ensures r.Success? ==> fresh(r.value)
    {
      if !disk.Exists(dir) {
        return Failure(NotFound(ResourceDirectory, dir));
      }
      var lexiconFile := LexiconPath(dir);
      if !disk.Exists(lexiconFile) {
        CheckResourcesLexiconSecond(disk, dir);
        return Failure(NotFound(LexiconArtifact, lexiconFile));
      }
      var modelFile := ModelPath(dir);
      if !disk.Exists(modelFile) {
        CheckResourcesModelLast(disk, dir);
        return Failure(NotFound(ModelArtifact, modelFile));
      }
      CheckResourcesPass(disk, dir);
      var read := readLexicon(lexiconFile);
      if read.Failure? {
        return Failure(read.error);
      }
      var lexicon := read.value;
      var classifier := lexicon.classifierType;
      if classifier !in registry {
        return Failure(UnknownClassifier(classifier));
      }
      var instance := new TextClassifier(registry[classifier]);
      instance.lastModifiedLexicon := disk.LastModified(lexiconFile);
      instance.pathResourceDirectory := dir;
      instance.lexicon := lexicon;
      var loaded := instance.implementation.loadModel(instance.pathResourceDirectory, instance.lexicon);
      if loaded.Fail? {
        return Failure(loaded.error);
      }
      return Success(instance);
    }

    /**
     * classify(Document[]): one score vector per document, in input order; the
     * first document whose classification fails aborts the whole batch.
     */
    method ClassifyDocuments(documents: array<Document>) returns (r: Result<array<seq<real>>>)
      ensures r.Success? <==> forall d :: 0 <= d < documents.Length ==> implementation.classify(documents[d]).Success?
      ensures r.Success? ==> fresh(r.value) && r.value.Length == documents.Length
      ensures r.Success? ==> forall d :: 0 <= d < documents.Length ==>
                               implementation.classify(documents[d]) == Success(r.value[d])
      ensures r.Failure? ==> exists k :: 0 <= k < documents.Length &&
                               implementation.classify(documents[k]) == Failure(r.error) &&
                               forall d :: 0 <= d < k ==> implementation.classify(documents[d]).Success?
    {
      var predictions := new seq<real>[documents.Length];
      for d := 0 to documents.Length
        invariant forall i :: 0 <= i < d ==> implementation.classify(documents[i]) == Success(predictions[i])
      {
        var doc := documents[d];
        var scores := implementation.classify(doc);
        if scores.Failure? {
          return Failure(scores.error);
        }
        predictions[d] := scores.value;
      }
      return Success(predictions);
    }

    /** classify(List): the list turned into an array, classified in list order. */
    method ClassifyCorpus(corpus: seq<Document>) returns (r: Result<array<seq<real>>>)
      ensures r.Success? <==> forall d :: 0 <= d < |corpus| ==> implementation.classify(corpus[d]).Success?
      ensures r.Success? ==> fresh(r.value) && r.value.Length == |corpus|
      ensures r.Success? ==> forall d :: 0 <= d < |corpus| ==>
                               implementation.classify(corpus[d]) == Success(r.value[d])
      ensures r.Failure? ==> exists k :: 0 <= k < |corpus| &&
                               implementation.classify(corpus[k]) == Failure(r.error) &&
                               forall d :: 0 <= d < k ==> implementation.classify(corpus[d]).Success?
    {
      var documents := new Document[|corpus|](i requires 0 <= i < |corpus| => corpus[i]);
      assert forall d :: 0 <= d < |corpus| ==> documents[d] == corpus[d];
      r := ClassifyDocuments(documents);
      assert forall d :: 0 <= d < |corpus| ==> documents[d] == corpus[d];
    }

    /**
     * getBestLabel: scanning from index 0 with a baseline of 0 and replacing the
     * best on >=, it returns the label of the last index holding the maximum
     * score, or of index 0 when every score is negative.
     */
    method GetBestLabel(scores: seq<real>) returns (bestLabel: Option<string>)
      ensures exists k :: IsBestIndex(scores, k) && bestLabel == lexicon.LabelAt(k)
    {
      var best := 0;
      var bestScore := 0.0;
      ghost var found := false;
      for d := 0 to |scores|
        invariant found <==> exists i :: 0 <= i < d && scores[i] >= 0.0
        invariant found ==> best < d && bestScore == scores[best]
        invariant !found ==> best == 0 && bestScore == 0.0
        invariant forall j :: 0 <= j < d ==> scores[j] <= bestScore
        invariant forall j :: best < j < d ==> scores[j] < bestScore
      {
        if scores[d] >= bestScore {
          bestScore := scores[d];
          best := d;
        }
        found := found || scores[d] >= 0.0;
      }
      bestLabel := lexicon.LabelAt(best);
      assert IsBestIndex(scores, best);
    }

    /**
     * getBestLabels: rejects a ratio outside (0, 1], rescales every score to
     * (score - min) / (max - min), puts each rescaled score with its label into a
     * TreeMap and keeps, in key order, the labels whose key is at least the ratio.
     */
    method GetBestLabels(scores: seq<real>, ratioOfBest: real) returns (r: Result<seq<string>>)
      requires 0.0 < ratioOfBest <= 1.0 ==> |scores| <= lexicon.LabelNum() && FiniteDoubles(scores)
      ensures r == BestLabelsOf(scores, lexicon.labels, ratioOfBest)
    {
      if ratioOfBest > 1.0 || ratioOfBest <= 0.0 {
        return Failure(InvalidRatio(ratioOfBest));
      }
      var labels := lexicon.labels;
      var max, min := ScoreRange(scores);
      var sortedMap := RescaleIntoTreeMap(scores, labels, max, min);
      var threshold := ratioOfBest;
      ghost var kept;
      var labelsKept;
      labelsKept, kept := KeepAtLeast(sortedMap, threshold);
      ghost var ks := ScaledKeys(scores);
      AsMapKeys(sortedMap);
      assert forall y :: y in kept <==> Scaled(y) in ks && y >= threshold;
      var q := SortedDistinct(KeptValues(ks, threshold));
      IncreasingUnique(kept, q);
      assert labelsKept == LabelsOf(ks, labels, kept) by {
        forall t | 0 <= t < |kept| ensures labelsKept[t] == LabelsOf(ks, labels, kept)[t] {
          LabelsOfAt(ks, labels, kept, t);
        }
      }
      r := Success(labelsKept);
    }

    /**
     * needsRefreshing: true exactly when the lexicon on disk no longer carries
     * the stamp recorded when this instance was resolved; nothing changes.
     */
    method NeedsRefreshing(disk: Disk) returns (r: bool)
      ensures r == NeedsRefresh(lastModifiedLexicon, disk, pathResourceDirectory)
    {
      var lastModified := disk.LastModified(LexiconPath(pathResourceDirectory));
      r := false;
      if lastModifiedLexicon != lastModified {
        r := true;
      }
    }
  }

  /**
   * The first loop of getBestLabels: max and min of the scores, starting from
   * -Double.MAX_VALUE and Double.MAX_VALUE, which an empty array leaves in place.
   */
  method ScoreRange(scores: seq<real>) returns (max: real, min: real)
    requires FiniteDoubles(scores)
    ensures scores == [] ==> max == -DoubleMax && min == DoubleMax
    ensures scores != [] ==> max == Max(scores) && min == Min(scores)
  {
    max, min := -DoubleMax, DoubleMax;
    ghost var maxAt, minAt := 0, 0;
    for d := 0 to |scores|
      invariant d == 0 ==> max == -DoubleMax && min == DoubleMax
      invariant d > 0 ==> maxAt < d && scores[maxAt] == max && minAt < d && scores[minAt] == min
      invariant forall j :: 0 <= j < d ==> min <= scores[j] <= max
    {
      if scores[d] > max {
        max := scores[d];
        maxAt := d;
      } else if d == 0 {
        maxAt := 0;
      }
      if scores[d] < min {
        min := scores[d];
        minAt := d;
      } else if d == 0 {
        minAt := 0;
      }
    }
    if scores != [] {
      assert Max(scores) <= max && max <= Max(scores);
      assert Min(scores) <= min && min <= Min(scores);
    }
  }

  /**
   * The second loop of getBestLabels: each score rescaled by the range and put
   * with its label into the TreeMap, later indices overwriting earlier ones
   * that share a key.
   */
  method RescaleIntoTreeMap(scores: seq<real>, labels: seq<string>, max: real, min: real)
    returns (sortedMap: seq<Entry>)
    requires |scores| <= |labels|
    requires scores != [] ==> max == Max(scores) && min == Min(scores)
    ensures Sorted(sortedMap)
    ensures AsMap(sortedMap) == Overwritten(ScaledKeys(scores), labels)
  {
    sortedMap := [];
    var scaleFactor := max - min;
    ghost var ks := ScaledKeys(scores);
    for x := 0 to |scores|
      invariant Sorted(sortedMap)
      invariant AsMap(sortedMap) == Overwritten(ks[..x], labels)
    {
      var newScore := if scaleFactor == 0.0 then NaN else Scaled((scores[x] - min) / scaleFactor);
      assert newScore == ks[x];
      OverwrittenStep(ks, labels, x);
      sortedMap := Put(sortedMap, newScore, labels[x]);
    }
    assert ks[..|scores|] == ks;
  }

  /**
   * The last loop of getBestLabels: the TreeMap's values in key order whose key
   * is at least the threshold. A NaN key fails every comparison. The ghost
   * result holds the keys of the values kept.
   */
  method KeepAtLeast(sortedMap: seq<Entry>, threshold: real) returns (labelsKept: seq<string>, ghost kept: seq<real>)
    requires Sorted(sortedMap)
    ensures |labelsKept| == |kept|
    ensures StrictlyIncreasing(kept)
    ensures forall y :: y in kept <==> Scaled(y) in KeySet(sortedMap) && y >= threshold
    ensures forall t :: 0 <= t < |kept| ==>
              Scaled(kept[t]) in AsMap(sortedMap) && labelsKept[t] == AsMap(sortedMap)[Scaled(kept[t])]
  {
    labelsKept, kept := [], [];
    for j := 0 to |sortedMap|
      invariant |labelsKept| == |kept|
      invariant StrictlyIncreasing(kept)
      invariant forall y :: y in kept <==> Scaled(y) in KeySet(sortedMap[..j]) && y >= threshold
      invariant forall t, i :: 0 <= t < |kept| && j <= i < |sortedMap| ==> KeyLess(Scaled(kept[t]), sortedMap[i].0)
      invariant forall t :: 0 <= t < |kept| ==>
                  Scaled(kept[t]) in AsMap(sortedMap) && labelsKept[t] == AsMap(sortedMap)[Scaled(kept[t])]
    {
      var pair := sortedMap[j];
      KeySetStep(sortedMap, j);
      AsMapAt(sortedMap, j);
      var keep := match pair.0 case NaN => false case Scaled(v) => v >= threshold;
      if keep {
        labelsKept := labelsKept + [pair.1];
        kept := kept + [pair.0.value];
      }
    }
    assert sortedMap[..|sortedMap|] == sortedMap;
  }
}
