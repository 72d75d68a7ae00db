/**
 * Shapes of the dictionaries and request objects that the service passes
 * around (app/schemas.py and the plain dicts of the other modules). A field
 * that a dict may lack is an `Option`, so `d.get(key, default)` is
 * `GetOr(default)`.
 */
module Schemas {
  import opened Wrappers
  import opened PyDict

  /** One entry of `unified_labels`: a cluster's title, description, keywords and examples. */
  datatype LabelDict = LabelDict(
    title: Option<string>,
    description: Option<string>,
    keywords: Option<seq<string>>,
    examples: Option<seq<string>>)

  /** One entry of `videos`: its `title` and its `cluster` label (-1 for noise). */
  datatype Video = Video(title: Option<string>, cluster: Option<int>)

  /**
   * The result dict built by the clustering step and enriched by the
   * endpoint. `unifiedLabels` and `videos` are absent unless a caller adds them.
   */
  datatype RawResult = RawResult(
    labels: seq<int>,
    outliers: seq<nat>,
    clusters: Dict<int, nat>,
    gaps: seq<string>,
    unifiedLabels: Option<Dict<int, LabelDict>>,
    videos: Option<seq<Video>>)

  /**
   * The request body. The declared schema has no `query` field, so reading
   * `payload.query` on it fails; `query` is `None` for such a request and
   * `Some(q)` for a request object that does carry a query.
   */
  datatype ClusterRequest = ClusterRequest(
    texts: seq<string>,
    query: Option<string>,
    minClusterSize: int,
    minSamples: int)
}
