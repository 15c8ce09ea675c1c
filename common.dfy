/** Values shared by the whole model: results, errors, the lexicon and documents. */
module Common {

  datatype Option<+T> = None | Some(value: T)

  /** A computation that either yields a value or fails with an exception. */
  datatype Result<+T> = Success(value: T) | Failure(error: Error)

  /** A computation with no value that either completes or fails with an exception. */
  datatype Outcome = Pass | Fail(error: Error)

  /** The kinds of artifact whose absence stops the resolution of a classifier. */
  datatype Artifact = ResourceDirectory | LexiconArtifact | ModelArtifact

  /** The exceptions thrown by the facade or passed through it. */
  datatype Error =
    | NotFound(artifact: Artifact, path: string)  // IOException from the existence checks
    | UnknownClassifier(name: string)              // Class.forName finds no such class
    | InvalidRatio(ratio: real)                    // RuntimeException of getBestLabels
    | Raised(message: string)                      // any failure of a collaborator

  /**
   * The label vocabulary of a trained model and the name of the classifier
   * implementation that reads it. Its storage format is not part of this model.
   */
  datatype Lexicon = Lexicon(labels: seq<string>, classifierType: string) {

    function LabelNum(): nat { |labels| }

    /**
     * The label with index i. An index the lexicon does not know yields None;
     * what the lexicon itself does for such an index is not part of this model.
     */
    function LabelAt(i: nat): (r: Option<string>)
      ensures r.Some? <==> i < |labels|
      ensures r.Some? ==> r.value == labels[i]
    {
      if i < |labels| then Some(labels[i]) else None
    }
  }

  /** A document ready for inference: an opaque sequence of tokens. */
  datatype Document = Document(tokens: seq<string>)
}
