/**
 * The path processor: turns one path entry of the API description into PathMetadata.
 * The verbs arrive already decoded (see README, "Left out"); the path key is
 * copied as it is.
 */
module PathProcessing {
  import opened Records

  /** The metadata of a path entry keyed `key` whose verbs are `verbs`. */
  function Process(key: string, verbs: seq<VerbResult>): (metadata: PathMetadata)
    ensures metadata.path == key
    ensures metadata.verbs == verbs
  {
    PathMetadata(key, verbs)
  }
}
