/**
 * app/main.py: the `/cluster` endpoint, its example cleaner and the
 * compression of `unified_labels`. The sentence encoder, the clusterer,
 * KeyBERT and the model client are parameters.
 */
module Service {
  import opened Wrappers
  import opened PyExceptions
  import opened PySeq
  import opened PyStr
  import opened PyDict
  import opened Schemas
  import opened ExampleCleaning
  import opened Labeling
  import opened Clustering
  import opened GeminiPayload
  import opened GeminiClient
  import Compress

  // ---------------------------------------------------------- clean_example

  /** The four spam phrases of app/main.py. */
  const Blacklist: seq<string> := ["telegram", "join group", "link in bio", "follow for link"]

  /** `clean_example(text, max_len)` of app/main.py. */
  function CleanExample(text: string, maxLen: nat): (r: string)
    ensures text == "" ==> r == ""
    ensures Contains(Lower(text), "telegram") ==> r == ""
    ensures Contains(Lower(text), "join group") ==> r == ""
    ensures Contains(Lower(text), "link in bio") ==> r == ""
    ensures Contains(Lower(text), "follow for link") ==> r == ""
    ensures r != "" ==> forall b | b in Blacklist :: !Contains(Lower(text), b)
    ensures r == "" <==>
      text == "" || Blacklisted(text, Blacklist) || AllSpace(Take(FirstSentence(text), maxLen))
    ensures text != "" && !Blacklisted(text, Blacklist) ==> r == Shorten(text, maxLen)
    ensures '.' !in r && |r| <= maxLen && NoEdgeSpace(r)
    ensures exists i, j | 0 <= i <= j <= |text| :: r == text[i..j]
  {
    assert Blacklist[0] == "telegram" && Blacklist[1] == "join group";
    assert Blacklist[2] == "link in bio" && Blacklist[3] == "follow for link";
    Clean(text, maxLen, Blacklist)
  }

  /**
   * The endpoint's cleaner removes everything the summary cleaner of
   * app/compress.py removes, and agrees with it on what both keep.
   */
  lemma CleanersAgree(text: string, maxLen: nat)
    ensures Compress.CleanExample(text, maxLen) == "" ==> CleanExample(text, maxLen) == ""
    ensures CleanExample(text, maxLen) != "" ==> CleanExample(text, maxLen) == Compress.CleanExample(text, maxLen)
  {
    assert forall b | b in Compress.Blacklist :: b in Blacklist by {
      assert Compress.Blacklist == [Blacklist[0], Blacklist[2], Blacklist[1]];
    }
    CleanLongerBlacklist(text, maxLen, Compress.Blacklist, Blacklist);
  }

  // ------------------------------------------------ compress_unified_labels

  /** Raw examples looked at per cluster. */
  const ExamplesCleaned: nat := 6
  /** Cleaned examples kept per cluster. */
  const ExamplesKept: nat := 3

  /** The non-empty cleaned forms of a label's first six examples. */
  function CleanedExamples(obj: LabelDict): (r: seq<string>)
    ensures "" !in r
    ensures |r| <= ExamplesCleaned
    ensures var cleaned := CleanEach(Take(obj.examples.GetOr([]), ExamplesCleaned), DefaultMaxLen, Blacklist);
      && Subseq(r, cleaned)
      && |r| == |cleaned| - Count(cleaned, "")
  {
    DropEmpty(CleanEach(Take(obj.examples.GetOr([]), ExamplesCleaned), DefaultMaxLen, Blacklist))
  }

  /** Every cleaned example is its own cleaning. */
  lemma CleanedExamplesAreClean(obj: LabelDict)
    ensures forall e | e in CleanedExamples(obj) :: CleanExample(e, DefaultMaxLen) == e
  {
    var ex := Take(obj.examples.GetOr([]), ExamplesCleaned);
    var cleaned := CleanEach(ex, DefaultMaxLen, Blacklist);
    SubseqMembers(CleanedExamples(obj), cleaned);
    forall e | e in CleanedExamples(obj) ensures CleanExample(e, DefaultMaxLen) == e {
      var k :| 0 <= k < |cleaned| && cleaned[k] == e;
      CleanIdempotent(ex[k], DefaultMaxLen, Blacklist);
    }
  }

  /**
   * One label after compression: title and description untouched, the
   * first three cleaned examples, and KeyBERT keywords of all cleaned ones.
   */
  function CompressLabel(obj: LabelDict, keybert: (string, nat) -> seq<(string, real)>): (r: LabelDict)
    ensures r.title == obj.title && r.description == obj.description
    ensures r.examples.Some? && |r.examples.value| == Min(ExamplesKept, |CleanedExamples(obj)|)
    ensures r.examples.value <= CleanedExamples(obj)
    ensures r.keywords == Some(ExtractKeywords(CleanedExamples(obj), DefaultTopN, keybert))
    ensures CleanedExamples(obj) == [] ==> r.keywords == Some([])
  {
    var cleaned := CleanedExamples(obj);
    obj.(examples := Some(Take(cleaned, ExamplesKept)),
         keywords := Some(ExtractKeywords(cleaned, DefaultTopN, keybert)))
  }

  /**
   * `compress_unified_labels(unified_labels)`: every entry compressed in
   * place, so the keys and their order stay as they were.
   */
  function CompressUnifiedLabels(labels: Dict<int, LabelDict>, keybert: (string, nat) -> seq<(string, real)>): (r: Dict<int, LabelDict>)
    ensures Keys(r) == Keys(labels)
    ensures forall i | 0 <= i < |labels| :: r[i].1 == CompressLabel(labels[i].1, keybert)
  {
    seq(|labels|, i requires 0 <= i < |labels| => (labels[i].0, CompressLabel(labels[i].1, keybert)))
  }

  /** A compressed label's examples are non-empty and already clean. */
  lemma CompressedLabelClean(obj: LabelDict, keybert: (string, nat) -> seq<(string, real)>)
    ensures forall e | e in CompressLabel(obj, keybert).examples.value ::
      e != "" && CleanExample(e, DefaultMaxLen) == e
  {
    CleanedExamplesAreClean(obj);
  }

  /** Every compressed entry's examples are non-empty and already clean. */
  lemma CompressedLabelsClean(labels: Dict<int, LabelDict>, keybert: (string, nat) -> seq<(string, real)>)
    ensures forall i | 0 <= i < |labels| ::
      var ex := CompressUnifiedLabels(labels, keybert)[i].1.examples;
      ex.Some? && forall e | e in ex.value :: e != "" && CleanExample(e, DefaultMaxLen) == e
  {
    forall i | 0 <= i < |labels|
      ensures var ex := CompressUnifiedLabels(labels, keybert)[i].1.examples;
        ex.Some? && forall e | e in ex.value :: e != "" && CleanExample(e, DefaultMaxLen) == e
    {
      CompressedLabelClean(labels[i].1, keybert);
    }
  }

  /** Compressing a compressed label again leaves its examples as they are. */
  lemma CompressExamplesStable(obj: LabelDict, keybert: (string, nat) -> seq<(string, real)>)
    ensures CompressLabel(CompressLabel(obj, keybert), keybert).examples == CompressLabel(obj, keybert).examples
  {
    var once := CompressLabel(obj, keybert);
    var ex := once.examples.value;
    CleanedExamplesAreClean(obj);
    assert Take(ex, ExamplesCleaned) == ex;
    var cleaned := CleanEach(ex, DefaultMaxLen, Blacklist);
    assert cleaned == ex by {
      forall k | 0 <= k < |ex| ensures cleaned[k] == ex[k] {
        assert ex[k] in CleanedExamples(obj);
      }
    }
    assert "" !in ex;
    DropEmptyKeeps(ex);
    assert CleanedExamples(once) == ex;
  }

  // ------------------------------------------------------------- validation

  datatype HttpFailure =
    | Rejected(status: nat, detail: string)
      /** An exception the handler does not catch (FastAPI answers 500). */
    | Crashed(exception: PyException)

  const TooFewTexts: string := "At least 2 text items are required for clustering"
  const QueryRequired: string := "Query is required"
  const EmptyText: string := "Texts must not be empty"
  const MissingQuery := AttributeError("query")

  /**
   * The three checks of `cluster_texts`, in order: at least two texts, a
   * non-blank query, no blank text. Reading the query of a request without
   * one raises. Returns the query.
   */
  function Validate(req: ClusterRequest): (r: Result<string, HttpFailure>)
    ensures r.Success? <==>
      && |req.texts| >= 2
      && req.query.Some? && !AllSpace(req.query.value)
      && forall i | 0 <= i < |req.texts| :: !AllSpace(req.texts[i])
    ensures r.Success? ==> r.value == req.query.value
    ensures |req.texts| < 2 ==> r == Failure(Rejected(400, TooFewTexts))
    ensures |req.texts| >= 2 && req.query.None? ==> r == Failure(Crashed(MissingQuery))
    ensures |req.texts| >= 2 && req.query.Some? && AllSpace(req.query.value) ==>
      r == Failure(Rejected(400, QueryRequired))
    ensures r == Failure(Rejected(400, EmptyText)) <==>
      && |req.texts| >= 2
      && req.query.Some? && !AllSpace(req.query.value)
      && exists i | 0 <= i < |req.texts| :: AllSpace(req.texts[i])
    ensures r.Failure? && r.error.Rejected? ==> r.error.status == 400
  {
    if |req.texts| < 2 then Failure(Rejected(400, TooFewTexts))
    else if req.query.None? then Failure(Crashed(MissingQuery))
    else if Strip(req.query.value) == "" then Failure(Rejected(400, QueryRequired))
    else if exists i | 0 <= i < |req.texts| :: Strip(req.texts[i]) == "" then Failure(Rejected(400, EmptyText))
    else Success(req.query.value)
  }

  // ------------------------------------------------------------ the endpoint

  /** The two keys the endpoint adds for the model's analysis. */
  datatype GeminiFields = GeminiFields(clusterAnalysis: Option<Json>, rawText: string)

  /** The response body: the clustering result plus the analysis keys. */
  datatype Response = Response(result: RawResult, gemini: GeminiFields)

  /**
   * The analysis step as written: any exception gives `None` and "", and on
   * success the raw text is looked up under a key the analysis never has.
   */
  function AttachGemini(raw: RawResult, query: string, client: Client): (r: GeminiFields)
    ensures r.rawText == ""
    ensures r.clusterAnalysis.Some? <==>
      BuildGeminiPayload(raw, query).Success? && Analyze(BuildGeminiPayload(raw, query).value, client).outcome.Success?
    ensures r.clusterAnalysis.Some? ==>
      r.clusterAnalysis.value == Analyze(BuildGeminiPayload(raw, query).value, client).outcome.value.clusterAnalysis
  {
    match BuildGeminiPayload(raw, query)
    case Failure(_) => GeminiFields(None, "")
    case Success(payload) =>
      match Analyze(payload, client).outcome
      case Failure(_) => GeminiFields(None, "")
      case Success(a) => GeminiFields(Some(a.clusterAnalysis), "")
  }

  /** The analysis's raw text never reaches the response. */
  lemma RawTextDropped(raw: RawResult, query: string, client: Client)
    requires BuildGeminiPayload(raw, query).Success?
    requires var run := Analyze(BuildGeminiPayload(raw, query).value, client);
      run.outcome.Success? && run.outcome.value.rawText != ""
    ensures AttachGemini(raw, query, client).rawText
      != Analyze(BuildGeminiPayload(raw, query).value, client).outcome.value.rawText
  {
  }

  /** The analysis step passing the analysis's `raw_text` through. */
  function AttachGeminiCorrected(raw: RawResult, query: string, client: Client): (r: GeminiFields)
    ensures r.clusterAnalysis == AttachGemini(raw, query, client).clusterAnalysis
    ensures r.clusterAnalysis.Some? ==>
      r.rawText == Analyze(BuildGeminiPayload(raw, query).value, client).outcome.value.rawText
    ensures r.clusterAnalysis.None? ==> r.rawText == ""
    ensures NoEdgeSpace(r.rawText)
  {
    match BuildGeminiPayload(raw, query)
    case Failure(_) => GeminiFields(None, "")
    case Success(payload) =>
      match Analyze(payload, client).outcome
      case Failure(_) => GeminiFields(None, "")
      case Success(a) => GeminiFields(Some(a.clusterAnalysis), a.rawText)
  }

  /** A raw text that parsed to nothing is handed to the caller. */
  lemma MalformedOutputReachesCaller(raw: RawResult, query: string, client: Client)
    requires BuildGeminiPayload(raw, query).Success?
    requires var run := Analyze(BuildGeminiPayload(raw, query).value, client);
      run.outcome.Success? && run.outcome.value.status == Errored(MalformedError)
    ensures var a := Analyze(BuildGeminiPayload(raw, query).value, client).outcome.value;
      AttachGeminiCorrected(raw, query, client) == GeminiFields(Some(JArray([])), a.rawText)
      && a.rawText != ""
  {
  }

  /**
   * The collaborators: sentence encoder, clusterer, KeyBERT and the model
   * client. The clusterer (normalisation, PCA and HDBSCAN) either labels the
   * vectors or raises; the labels are taken as it returns them.
   */
  datatype Collaborators<!V> = Collaborators(
    encode: seq<string> -> Result<V, string>,
    cluster: (V, int, int) -> Result<seq<int>, string>,
    keybert: (string, nat) -> seq<(string, real)>,
    client: Client)

  const EmbeddingFailed: string := "Embedding generation failed: "
  /** `run_hdbscan` takes no `texts` argument. */
  const UnexpectedTexts := TypeError("run_hdbscan() got an unexpected keyword argument 'texts'")

  /**
   * `cluster_texts(payload)` as written: after validation and encoding, the
   * call to `run_hdbscan` passes a keyword argument it does not accept.
   */
  function ClusterTexts<V>(req: ClusterRequest, with: Collaborators<V>): (r: Result<Response, HttpFailure>)
    ensures r.Failure?
    ensures Validate(req).Failure? ==> r == Failure(Validate(req).error)
    ensures Validate(req).Success? && with.encode(req.texts).Failure? ==>
      r == Failure(Rejected(500, EmbeddingFailed + with.encode(req.texts).error))
    ensures Validate(req).Success? && with.encode(req.texts).Success? ==> r == Failure(Crashed(UnexpectedTexts))
  {
    match Validate(req)
    case Failure(f) => Failure(f)
    case Success(_) =>
      match with.encode(req.texts)
      case Failure(msg) => Failure(Rejected(500, EmbeddingFailed + msg))
      case Success(_) => Failure(Crashed(UnexpectedTexts))
  }

  /** A request of the declared schema, which has no query, with two good texts. */
  lemma DeclaredRequestCrashes<V>(with: Collaborators<V>)
    ensures ClusterTexts(ClusterRequest(["cats", "dogs"], None, 2, 1), with) == Failure(Crashed(MissingQuery))
  {
    var req := ClusterRequest(["cats", "dogs"], None, 2, 1);
    assert |req.texts| == 2;
  }

  /** Even a request that carries a query and encodes cleanly gets no result. */
  lemma ValidRequestStillFails<V>(req: ClusterRequest, with: Collaborators<V>)
    requires Validate(req).Success? && with.encode(req.texts).Success?
    ensures ClusterTexts(req, with) == Failure(Crashed(UnexpectedTexts))
  {
  }

  /** The clustering result with its labels compressed when it has any. */
  function CompressIfLabelled(raw: RawResult, keybert: (string, nat) -> seq<(string, real)>): (r: RawResult)
    ensures r.unifiedLabels.Some? <==> raw.unifiedLabels.Some?
    ensures r.unifiedLabels.Some? ==> r.unifiedLabels.value == CompressUnifiedLabels(raw.unifiedLabels.value, keybert)
    ensures r.(unifiedLabels := raw.unifiedLabels) == raw
  {
    if raw.unifiedLabels.Some? then
      raw.(unifiedLabels := Some(CompressUnifiedLabels(raw.unifiedLabels.value, keybert)))
    else raw
  }

  /**
   * `cluster_texts` with `query` declared on the request schema (so every
   * request reaching the handler has one), `run_hdbscan` called with the
   * arguments it accepts, and the analysis's raw text passed through.
   */
  function ClusterTextsCorrected<V>(req: ClusterRequest, with: Collaborators<V>): (r: Result<Response, HttpFailure>)
    requires req.query.Some?
    ensures r.Success? <==>
      && Validate(req).Success? && with.encode(req.texts).Success?
      && with.cluster(with.encode(req.texts).value, req.minClusterSize, req.minSamples).Success?
    ensures r.Failure? && Validate(req).Failure? ==> r.error == Validate(req).error
    ensures Validate(req).Success? && with.encode(req.texts).Failure? ==>
      r == Failure(Rejected(500, EmbeddingFailed + with.encode(req.texts).error))
    ensures Validate(req).Success? && with.encode(req.texts).Success? ==>
      var clustered := with.cluster(with.encode(req.texts).value, req.minClusterSize, req.minSamples);
      clustered.Failure? ==> r == Failure(Crashed(External(clustered.error)))
    ensures r.Failure? && r.error.Crashed? ==> r.error.exception.External?
    ensures r.Success? ==>
      var labels := with.cluster(with.encode(req.texts).value, req.minClusterSize, req.minSamples).value;
      var raw := CompressIfLabelled(RunHdbscan(labels, req.minClusterSize), with.keybert);
      && r.value.result == raw
      && r.value.gemini == AttachGeminiCorrected(raw, req.query.value, with.client)
  {
    match Validate(req)
    case Failure(f) => Failure(f)
    case Success(query) =>
      match with.encode(req.texts)
      case Failure(msg) => Failure(Rejected(500, EmbeddingFailed + msg))
      case Success(embeddings) =>
        match with.cluster(embeddings, req.minClusterSize, req.minSamples)
        case Failure(msg) => Failure(Crashed(External(msg)))
        case Success(labels) =>
          var raw := CompressIfLabelled(RunHdbscan(labels, req.minClusterSize), with.keybert);
          Success(Response(raw, AttachGeminiCorrected(raw, query, with.client)))
  }

  /**
   * A failed analysis degrades the response instead of failing it: the
   * clustering result is returned with `None` and "" for the analysis.
   */
  lemma AnalysisFailureDegrades<V>(req: ClusterRequest, with: Collaborators<V>)
    requires req.query.Some? && Validate(req).Success? && with.encode(req.texts).Success?
    requires with.cluster(with.encode(req.texts).value, req.minClusterSize, req.minSamples).Success?
    requires var labels := with.cluster(with.encode(req.texts).value, req.minClusterSize, req.minSamples).value;
      var raw := CompressIfLabelled(RunHdbscan(labels, req.minClusterSize), with.keybert);
      AttachGemini(raw, req.query.value, with.client).clusterAnalysis.None?
    ensures ClusterTextsCorrected(req, with).Success?
    ensures ClusterTextsCorrected(req, with).value.gemini == GeminiFields(None, "")
  {
  }

  /** The corrected endpoint's result carries the clustering bookkeeping of the labels. */
  lemma CorrectedResultCountsLabels<V>(req: ClusterRequest, with: Collaborators<V>)
    requires req.query.Some? && Validate(req).Success? && with.encode(req.texts).Success?
    requires with.cluster(with.encode(req.texts).value, req.minClusterSize, req.minSamples).Success?
    ensures var labels := with.cluster(with.encode(req.texts).value, req.minClusterSize, req.minSamples).value;
      var result := ClusterTextsCorrected(req, with).value.result;
      && result.labels == labels
      && |result.outliers| + SumValues(result.clusters) == |labels|
  {
  }
}
