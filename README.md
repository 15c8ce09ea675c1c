# TextClassifier facade — a Dafny model

This project models the decision logic of `TextClassifier`, the abstract facade of the
DigitalPebble text-classification library. The modelled parts are:

- **Resolution.** `getClassifier` checks that the resource directory exists, then the
  lexicon file, then the model file. It fails on the first one missing. It then reads the
  lexicon, instantiates the classifier class that the lexicon names, and records three things
  in the new instance: the lexicon's last-modified stamp, the directory and the lexicon.
  Finally it lets the instance load its model.
- **Batch classification.** `classify(Document[])` and `classify(List)` call the
  single-document `classify` once per document, in order, and fill one row of the result per
  document.
- **Score interpretation.** `getBestLabel` and `getBestLabels` turn a score vector into one
  label, or into the labels within a ratio of the best.
- **Freshness.** `needsRefreshing` compares the stamp recorded at load time with the
  lexicon's current stamp.

Layout:

- `common.dfy` (module `Common`): results and errors (Java exceptions become `Failure`
  values), the lexicon and documents.
- `sorted_map.dfy` (module `SortedMap`): the `TreeMap<Double, String>` of `getBestLabels`.
  It is an association list kept in strictly ascending key order. Keys are `Scaled(v)` or
  `NaN`; `NaN` sorts above every number, as `Double.compareTo` orders it.
- `scores.dfy` (module `Scores`): what the score interpreter computes, as functions and
  lemmas over `seq<real>`.
- `resources.dfy` (module `Resources`): the disk as a map from path to stamp, the ordered
  existence checks, and the freshness predicate.
- `text_classifier.dfy` (module `Classification`): the class `TextClassifier`, whose fields
  are `lexicon`, `lastModifiedLexicon` and `pathResourceDirectory`. Its methods are proved
  against the functions above. The three loops of `getBestLabels` are three module-level
  methods.

Behaviour worth knowing, all taken from the code:

- **`getBestLabel` ties.** The baseline is `0` and the comparison is `>=`, so among equal
  maxima the **last** index wins. `[0.5, 0.5]` gives index 1. When every score is negative,
  index 0 is returned. The model follows the code (`Scores.BestIndexTieGoesLast`).
- **`getBestLabels` with equal scores.** When `max == min` (every score equal, one score
  included), each rescaled key is `0/0`, which is NaN. `NaN >= ratio` is false, so the
  result is empty. The model makes that key an explicit `NaN` instead of dividing. An
  empty score vector also gives an empty result.
- **`getBestLabels` duplicates.** `TreeMap.put` overwrites on an equal key. So only the
  label of the highest index survives for each distinct rescaled score: `[10, 10, 0]` with
  ratio 1 gives only label 1. The result is in ascending key order.
- **Stamp of a missing file.** `File.lastModified()` is 0 for a file that does not exist.
  A deleted lexicon therefore reads as stale unless the recorded stamp was 0.

## Model

| member | source | states |
|---|---|---|
| `SortedMap.Put` | src/main/java/com/digitalpebble/classification/TextClassifier.java:205-209 | TreeMap.put keeps the keys strictly ascending, adds the key to the key set, and maps it to the new label; an equal key is overwritten, other keys keep their labels |
| `Scores.BestIndexUnique` | src/main/java/com/digitalpebble/classification/TextClassifier.java:166-178 | the best-index rule (last index of the maximum when some score is >= 0, else 0) names exactly one index, so the label returned is determined |
| `Scores.BestIndexTieGoesLast` | src/main/java/com/digitalpebble/classification/TextClassifier.java:170-176 | on `[0.5, 0.5]` the rule picks index 1 and not index 0 |
| `Scores.BestIndexAllNegative` | src/main/java/com/digitalpebble/classification/TextClassifier.java:168-178 | on `[-1, -2]` the rule picks index 0 and no other index |
| `Scores.Max` | src/main/java/com/digitalpebble/classification/TextClassifier.java:190-197 | the maximum is one of the scores and no score exceeds it |
| `Scores.Min` | src/main/java/com/digitalpebble/classification/TextClassifier.java:191-202 | the minimum is one of the scores and no score is below it |
| `Scores.ScaledKeyRange` | src/main/java/com/digitalpebble/classification/TextClassifier.java:204-207 | when max > min every rescaled score is a number in [0, 1]; it is 1 exactly for the maxima and 0 exactly for the minima |
| `Scores.LastIndexOf` | src/main/java/com/digitalpebble/classification/TextClassifier.java:205-209 | the index found holds the key and no later index does: the label that survives the overwriting puts |
| `Scores.OverwrittenStep` | src/main/java/com/digitalpebble/classification/TextClassifier.java:205-209 | putting label i under key i after the first i puts gives the map in which each key holds the label of its last index among the first i + 1 |
| `Scores.IncreasingUnique` | src/main/java/com/digitalpebble/classification/TextClassifier.java:215-221 | two strictly increasing sequences with the same elements are equal, so the ascending walk over the TreeMap's kept keys is determined by those keys alone |
| `Scores.SortedDistinct` | src/main/java/com/digitalpebble/classification/TextClassifier.java:214-218 | the reference order of the kept keys: strictly ascending, and exactly the elements of its input |
| `Scores.KeptValues` | src/main/java/com/digitalpebble/classification/TextClassifier.java:211-220 | a rescaled score is kept exactly when it is a number (not NaN) that is at least the ratio |
| `Scores.LabelsOfAt` | src/main/java/com/digitalpebble/classification/TextClassifier.java:208-220 | the t-th label returned is the label of the highest index whose rescaled score is the t-th kept score |
| `Scores.BestLabelsRejectsRatio` | src/main/java/com/digitalpebble/classification/TextClassifier.java:186-188 | getBestLabels fails with the invalid-ratio error exactly when the ratio is > 1 or <= 0, whatever the length of the score vector |
| `Scores.BestLabelsDegenerate` | src/main/java/com/digitalpebble/classification/TextClassifier.java:192-220 | with no scores, or with max == min (a single score included), every key is NaN and the result is empty |
| `Scores.BestLabelsEndWithBest` | src/main/java/com/digitalpebble/classification/TextClassifier.java:190-220 | with max > min the result is non-empty and its last label is that of the highest index holding the maximum raw score |
| `Scores.BestLabelsTiedMaxima` | src/main/java/com/digitalpebble/classification/TextClassifier.java:205-222 | `[10, 10, 0]` with ratio 1 yields only label 1: the later of two equal keys overwrites the earlier |
| `Scores.BestLabelsBoundaryKept` | src/main/java/com/digitalpebble/classification/TextClassifier.java:205-222 | `[0, 5, 10]` with ratio 0.5 yields labels 1 and 2 in that order: the key equal to the ratio is kept |
| `Resources.FirstMissing` | src/main/java/com/digitalpebble/classification/TextClassifier.java:57-71 | nothing is reported when every required path exists; otherwise the reported position is missing and everything checked before it exists |
| `Resources.CheckResourcesPass` | src/main/java/com/digitalpebble/classification/TextClassifier.java:57-71 | the existence checks pass exactly when the directory, the lexicon file and the model file all exist |
| `Resources.CheckResourcesDirectoryFirst` | src/main/java/com/digitalpebble/classification/TextClassifier.java:57-61 | a missing directory is reported, whatever else is missing |
| `Resources.CheckResourcesLexiconSecond` | src/main/java/com/digitalpebble/classification/TextClassifier.java:62-67 | with the directory present, a missing lexicon is reported before a missing model |
| `Resources.CheckResourcesModelLast` | src/main/java/com/digitalpebble/classification/TextClassifier.java:68-71 | with directory and lexicon present, a missing model is reported |
| `Resources.StaleAfterRewrite` | src/main/java/com/digitalpebble/classification/TextClassifier.java:229-240 | a classifier that is fresh becomes stale once the lexicon is rewritten with another stamp |
| `Resources.StaleAfterDelete` | src/main/java/com/digitalpebble/classification/TextClassifier.java:232-238 | once the lexicon is deleted its stamp reads 0, so a classifier recorded with a non-zero stamp needs refreshing |
| `Resources.FreshnessIgnoresOtherFiles` | src/main/java/com/digitalpebble/classification/TextClassifier.java:232-235 | writing any file other than the lexicon, the model included, leaves the answer unchanged |
| `Classification.TextClassifier.constructor` | src/main/java/com/digitalpebble/classification/TextClassifier.java:31-33 | a newly instantiated classifier has the implementation it was built as, stamp 0, and empty stand-ins for the lexicon and the directory, which Java leaves `null` |
| `Classification.TextClassifier.GetClassifier` | src/main/java/com/digitalpebble/classification/TextClassifier.java:48-86 | fails with the first missing artifact before anything is read or built; otherwise fails with the lexicon-reading error, the unknown-class error or the load error, in that order; on success the instance has the named implementation, the lexicon, the directory and the lexicon's current stamp, so it does not need refreshing; the instance returned is newly allocated |
| `Classification.TextClassifier.ClassifyDocuments` | src/main/java/com/digitalpebble/classification/TextClassifier.java:117-127 | succeeds exactly when every document classifies; then it returns one row per document, row d being the scores of document d; otherwise it fails with the error of the first failing document; the array returned is newly allocated |
| `Classification.TextClassifier.ClassifyCorpus` | src/main/java/com/digitalpebble/classification/TextClassifier.java:106-111 | the same for a list: length and order of the list are preserved, and the first failure in list order aborts; the array returned is newly allocated |
| `Classification.TextClassifier.GetBestLabel` | src/main/java/com/digitalpebble/classification/TextClassifier.java:166-179 | returns the lexicon's label at the index the best-index rule names: the last index of the maximum when some score is >= 0, else index 0 |
| `Classification.TextClassifier.GetBestLabels` | src/main/java/com/digitalpebble/classification/TextClassifier.java:184-223 | returns exactly `Scores.BestLabelsOf`: the ratio error, or the labels of the distinct rescaled scores >= ratio in ascending order, each the label of the highest index with that score |
| `Classification.ScoreRange` | src/main/java/com/digitalpebble/classification/TextClassifier.java:190-202 | scanning from the ±Double.MAX_VALUE sentinels yields the true maximum and minimum of a non-empty score vector, and the sentinels for an empty one |
| `Classification.RescaleIntoTreeMap` | src/main/java/com/digitalpebble/classification/TextClassifier.java:204-209 | the filled TreeMap is sorted and maps each rescaled key (NaN when max == min) to the label of the last index with that key |
| `Classification.KeepAtLeast` | src/main/java/com/digitalpebble/classification/TextClassifier.java:212-222 | walking the TreeMap in key order keeps exactly the numeric keys at least the threshold, in strictly ascending order, each with the label the map holds for it |
| `Classification.TextClassifier.NeedsRefreshing` | src/main/java/com/digitalpebble/classification/TextClassifier.java:229-240 | true exactly when the recorded stamp differs from the lexicon's current stamp; changes nothing |

The contracts above are stated against these reference definitions, which carry no
contract of their own:

- `Scores.IsBestIndex` (src/main/java/com/digitalpebble/classification/TextClassifier.java:166-178): the index `getBestLabel` picks, the highest index
  holding the maximum when some score is at least 0, and index 0 otherwise.
- `Scores.Rescale` and `Scores.ScaledKeys` (src/main/java/com/digitalpebble/classification/TextClassifier.java:203-209): the `TreeMap` key of each score,
  `(x - min) / (max - min)`, or `NaN` when `max == min`.
- `Scores.BestLabelsOf` (src/main/java/com/digitalpebble/classification/TextClassifier.java:184-223): the result of `getBestLabels`, an `InvalidRatio`
  failure outside `(0, 1]`, otherwise the labels of the distinct kept keys in ascending
  order, each the label of the highest index holding that key.
- `Resources.CheckResources` (src/main/java/com/digitalpebble/classification/TextClassifier.java:58-71): the `NotFound` error of the first of directory,
  lexicon and model that does not exist, or `Pass`.
- `Resources.NeedsRefresh` (src/main/java/com/digitalpebble/classification/TextClassifier.java:229-240): the recorded stamp differs from the lexicon's
  current `lastModified`.

## Left out

- Unzipping a `.zip` resource archive (lines 51-56) is file-system I/O. The directory path
  is used as given.
- `getAbsolutePath` (lines 60, 80-81) is left out. The directory recorded is the path as
  given.
- Existence checks and `lastModified` are not performed on a real file system. They read a
  `Disk` value passed to each call.
- `Class.forName(...).newInstance()` (lines 75-76) is reflection. It is modelled as a lookup
  in a `registry` map from class name to `Implementation`; an unknown name fails with
  `UnknownClassifier`.
- The `Lexicon` class and its file format are not part of this model. Reading the lexicon
  is a `readLexicon` parameter that may fail. `getLabel` with an index the lexicon does not
  hold returns `None`.
- `loadModel` and the single-document `classify` are implemented in subclasses that are not
  part of this model. They are the functions of an `Implementation`, so `classify` is
  modelled as a function of the document alone, with no side effects.
- `Parameters` is not part of this model. The lexicon and model file names are taken as
  `"lexicon"` and `"model"`, and the properties do not depend on these values.
- `createDocument` (lines 129-146), `platterNormalisation` (lines 148-155) and `getLabels`
  (lines 157-160) are left out. They wrap classes outside this model, or are floating-point
  `Math.exp` numerics.
- Doubles are modelled as reals, so rounding is not modelled. With a valid ratio,
  `GetBestLabels` requires finite scores (`Scores.FiniteDoubles`), so infinite and NaN
  scores are excluded there.
- A NaN ratio, widening the `float` ratio to `double`, and overflow of `max - min` are not
  modelled.
- `ClassifyDocuments` does not model the result rows that are pre-sized to the lexicon's
  label count (line 119-120), because every row is replaced before the result is returned.
- `Classification.TextClassifier.GetBestLabels` requires, with a valid ratio, the score
  vector to be no longer than the lexicon's label list. A longer vector makes the source
  ask the lexicon for a label it does not have. With an invalid ratio any vector is
  accepted, and the ratio error is returned.
- `Classification.TextClassifier.constructor`: Java leaves `lexicon` and
  `pathResourceDirectory` `null` until `getClassifier` sets them. The model uses an empty
  `Lexicon` and `""` instead, so calls on a bare instance compute a value where Java would
  throw a `NullPointerException`.
- `Resources.Join` concatenates `dir + "/" + name` and does not normalise paths as
  `java.io.File(parent, child)` does (a trailing slash in `dir` gives a doubled `/`). No
  property depends on the exact path text.
