/**
 * app/gemini_payload.py: scrubbing free text so that it cannot break the
 * model's JSON output, and bounding the payload sent to the model.
 */
module GeminiPayload {
  import opened Wrappers
  import opened PyExceptions
  import opened PySeq
  import opened PyStr
  import opened PyDict
  import opened Schemas

  /** At most this many clusters are forwarded. */
  const MaxClusters: nat := 5
  /** At most this many raw examples per cluster are looked at. */
  const MaxExamples: nat := 2
  /** At most this many keywords per cluster are forwarded. */
  const MaxKeywords: nat := 6
  /** At most this many outlier titles are forwarded. */
  const MaxOutliers: nat := 3

  /** The right single quotation mark, normalised to an apostrophe. */
  const CurlyApostrophe: char := '\U{2019}'

  /** Holds of the strings that the sanitiser leaves alone. */
  predicate IsSanitized(s: string) {
    && '"' !in s && '\n' !in s && '\r' !in s && CurlyApostrophe !in s
    && NoEdgeSpace(s)
  }

  /**
   * `sanitize_text`: delete double quotes, turn CR and LF into spaces, turn
   * the curly apostrophe into a straight one, then strip.
   */
  function Sanitize(text: string): (r: string)
    ensures text == "" ==> r == ""
    ensures '"' !in r && '\n' !in r && '\r' !in r && CurlyApostrophe !in r
    ensures NoEdgeSpace(r)
    ensures IsSanitized(r)
    ensures |r| <= |text|
  {
    if text == "" then ""
    else
      var t := ReplaceChar(ReplaceChar(ReplaceChar(ReplaceChar(
        text, '"', ""), '\n', " "), '\r', " "), CurlyApostrophe, "'");
      StripChars(t);
      Strip(t)
  }

  /** The strings that `Sanitize` leaves unchanged are exactly the sanitised ones. */
  lemma SanitizeFixedPoints(s: string)
    ensures Sanitize(s) == s <==> IsSanitized(s)
  {
    if IsSanitized(s) && s != "" {
      ReplaceAbsent(s, '"', "");
      ReplaceAbsent(s, '\n', " ");
      ReplaceAbsent(s, '\r', " ");
      ReplaceAbsent(s, CurlyApostrophe, "'");
      StripIdempotent(s);
    }
  }

  /** Sanitising twice is sanitising once. */
  lemma SanitizeIdempotent(text: string)
    ensures Sanitize(Sanitize(text)) == Sanitize(text)
  {
    SanitizeFixedPoints(Sanitize(text));
  }

  /** `[sanitize_text(e) for e in xs]`. */
  function SanitizeEach(xs: seq<string>): (r: seq<string>)
    ensures |r| == |xs|
    ensures forall i | 0 <= i < |xs| :: r[i] == Sanitize(xs[i])
    ensures forall s | s in r :: IsSanitized(s)
  {
    seq(|xs|, i requires 0 <= i < |xs| => Sanitize(xs[i]))
  }

  /**
   * `[sanitize_text(e) for e in xs if e]`: the emptiness test looks at the
   * raw text, so a blank example survives as a sanitised `""`.
   */
  function SanitizeNonEmpty(xs: seq<string>): (r: seq<string>)
    ensures r == SanitizeEach(DropEmpty(xs))
  {
    if |xs| == 0 then []
    else if xs[0] == "" then SanitizeNonEmpty(xs[1..])
    else [Sanitize(xs[0])] + SanitizeNonEmpty(xs[1..])
  }

  datatype PayloadCluster = PayloadCluster(
    clusterId: int,
    title: string,
    keywords: seq<string>,
    examples: seq<string>,
    description: string)

  datatype Payload = Payload(
    query: string,
    clusters: seq<PayloadCluster>,
    outliersSample: seq<string>)

  /** The payload entry for one `(cid, obj)` item of `unified_labels`. */
  function ClusterEntry(cid: int, obj: LabelDict): (c: PayloadCluster)
    ensures c.clusterId == cid
    ensures c.title == Sanitize(obj.title.GetOr("")) && c.description == Sanitize(obj.description.GetOr(""))
    ensures IsSanitized(c.title) && IsSanitized(c.description)
    ensures c.examples == SanitizeEach(DropEmpty(Take(obj.examples.GetOr([]), MaxExamples)))
    ensures |c.examples| <= MaxExamples
    ensures |c.keywords| == Min(MaxKeywords, |obj.keywords.GetOr([])|)
    ensures forall k | 0 <= k < |c.keywords| :: c.keywords[k] == Sanitize(obj.keywords.GetOr([])[k])
  {
    var t := Sanitize(obj.title.GetOr(""));
    var d := Sanitize(obj.description.GetOr(""));
    SanitizeIdempotent(obj.title.GetOr(""));
    SanitizeIdempotent(obj.description.GetOr(""));
    SanitizeFixedPoints(t);
    SanitizeFixedPoints(d);
    PayloadCluster(
      cid,
      t,
      SanitizeEach(Take(obj.keywords.GetOr([]), MaxKeywords)),
      SanitizeNonEmpty(Take(obj.examples.GetOr([]), MaxExamples)),
      d)
  }

  /** The videos labelled as noise, in input order. */
  function NoiseVideos(videos: seq<Video>): (r: seq<Video>)
    ensures Subseq(r, videos)
    ensures forall v | v in r :: v.cluster == Some(-1)
    ensures forall v | v in videos && v.cluster == Some(-1) :: v in r
  {
    if |videos| == 0 then []
    else if videos[0].cluster == Some(-1) then [videos[0]] + NoiseVideos(videos[1..])
    else NoiseVideos(videos[1..])
  }

  /** Each noise video is kept as often as it occurs; no other video is kept. */
  lemma {:induction false} NoiseVideosCount(videos: seq<Video>, v: Video)
    ensures Count(NoiseVideos(videos), v) == if v.cluster == Some(-1) then Count(videos, v) else 0
    decreases |videos|
  {
    if |videos| > 0 {
      var r := NoiseVideos(videos);
      NoiseVideosCount(videos[1..], v);
      CountFront(videos, v);
      if videos[0].cluster == Some(-1) {
        assert r == [videos[0]] + NoiseVideos(videos[1..]);
        assert r[1..] == NoiseVideos(videos[1..]);
        CountFront(r, v);
      }
    }
  }

  /** `[sanitize_text(v["title"]) for v in vs]`: a video without `title` raises `KeyError`. */
  function TitlesOf(vs: seq<Video>): (r: Result<seq<string>, PyException>)
    ensures r.Failure? <==> exists v | v in vs :: v.title.None?
    ensures r.Failure? ==> r.error == KeyError("title")
    ensures r.Success? ==> |r.value| == |vs|
    ensures r.Success? ==> forall k | 0 <= k < |vs| ::
      vs[k].title.Some? && r.value[k] == Sanitize(vs[k].title.value)
  {
    if |vs| == 0 then Success([])
    else if vs[0].title.None? then Failure(KeyError("title"))
    else
      match TitlesOf(vs[1..])
      case Failure(e) => Failure(e)
      case Success(rest) => Success([Sanitize(vs[0].title.value)] + rest)
  }

  /**
   * `[sanitize_text(v["title"]) for v in videos if v.get("cluster") == -1]`:
   * the filter runs first, so only a noise video without `title` raises.
   */
  function NoiseTitles(videos: seq<Video>): (r: Result<seq<string>, PyException>)
    ensures r.Failure? <==> exists v | v in videos :: v.cluster == Some(-1) && v.title.None?
    ensures r.Failure? ==> r.error == KeyError("title")
    ensures r.Success? ==>
      var noise := NoiseVideos(videos);
      && |r.value| == |noise|
      && forall k | 0 <= k < |noise| :: noise[k].title.Some? && r.value[k] == Sanitize(noise[k].title.value)
  {
    var noise := NoiseVideos(videos);
    SubseqMembers(noise, videos);
    assert (exists v | v in noise :: v.title.None?) <==>
      exists v | v in videos :: v.cluster == Some(-1) && v.title.None?;
    TitlesOf(noise)
  }

  /**
   * `build_gemini_payload(raw_result, query)`: at most five clusters, each
   * with sanitised title and description, at most six sanitised keywords
   * and at most two sanitised examples; at most three sanitised noise
   * titles; the sanitised query.
   */
  function BuildGeminiPayload(raw: RawResult, query: string): (r: Result<Payload, PyException>)
    ensures r.Failure? <==>
      exists v | v in NoiseVideos(raw.videos.GetOr([])) :: v.title.None?
    ensures r.Failure? ==> r.error == KeyError("title")
    ensures r.Success? ==> r.value.query == Sanitize(query)
    ensures r.Success? ==>
      var labels := raw.unifiedLabels.GetOr([]);
      && |r.value.clusters| == Min(MaxClusters, |labels|)
      && forall i | 0 <= i < |r.value.clusters| ::
           && r.value.clusters[i].clusterId == labels[i].0
           && r.value.clusters[i].title == Sanitize(labels[i].1.title.GetOr(""))
           && r.value.clusters[i].description == Sanitize(labels[i].1.description.GetOr(""))
           && r.value.clusters[i].examples ==
                SanitizeEach(DropEmpty(Take(labels[i].1.examples.GetOr([]), MaxExamples)))
           && r.value.clusters[i].keywords == SanitizeEach(Take(labels[i].1.keywords.GetOr([]), MaxKeywords))
    ensures r.Success? ==>
      var noise := NoiseVideos(raw.videos.GetOr([]));
      && |r.value.outliersSample| == Min(MaxOutliers, |noise|)
      && forall k | 0 <= k < |r.value.outliersSample| ::
           r.value.outliersSample[k] == Sanitize(noise[k].title.value)
  {
    var labels := raw.unifiedLabels.GetOr([]);
    var clusters := seq(|labels|, i requires 0 <= i < |labels| => ClusterEntry(labels[i].0, labels[i].1));
    match NoiseTitles(raw.videos.GetOr([]))
    case Failure(e) => Failure(e)
    case Success(outliers) =>
      Success(Payload(Sanitize(query), Take(clusters, MaxClusters), Take(outliers, MaxOutliers)))
  }

  /** Every string the payload carries is a fixed point of the sanitiser. */
  lemma PayloadIsSanitized(raw: RawResult, query: string)
    requires BuildGeminiPayload(raw, query).Success?
    ensures var p := BuildGeminiPayload(raw, query).value;
      && Sanitize(p.query) == p.query
      && (forall s | s in p.outliersSample :: Sanitize(s) == s)
      && (forall c | c in p.clusters ::
            && Sanitize(c.title) == c.title && Sanitize(c.description) == c.description
            && (forall s | s in c.keywords :: Sanitize(s) == s)
            && (forall s | s in c.examples :: Sanitize(s) == s))
  {
    var p := BuildGeminiPayload(raw, query).value;
    SanitizeFixedPoints(p.query);
    forall s | s in p.outliersSample ensures Sanitize(s) == s {
      var k :| 0 <= k < |p.outliersSample| && p.outliersSample[k] == s;
      SanitizeFixedPoints(s);
    }
    forall c | c in p.clusters
      ensures Sanitize(c.title) == c.title && Sanitize(c.description) == c.description
    {
      SanitizeFixedPoints(c.title);
      SanitizeFixedPoints(c.description);
    }
    forall c, s | c in p.clusters && s in c.keywords ensures Sanitize(s) == s {
      SanitizeFixedPoints(s);
    }
    forall c, s | c in p.clusters && s in c.examples ensures Sanitize(s) == s {
      SanitizeFixedPoints(s);
    }
  }

  /**
   * Only the first five clusters reach the payload: entries after the fifth
   * change nothing.
   */
  lemma PayloadIgnoresLaterClusters(raw: RawResult, query: string, extra: Dict<int, LabelDict>)
    requires |raw.unifiedLabels.GetOr([])| >= MaxClusters
    ensures BuildGeminiPayload(raw, query) ==
      BuildGeminiPayload(raw.(unifiedLabels := Some(raw.unifiedLabels.GetOr([]) + extra)), query)
  {
    var a := raw.unifiedLabels.GetOr([]);
    var b := a + extra;
    var ca := seq(|a|, i requires 0 <= i < |a| => ClusterEntry(a[i].0, a[i].1));
    var cb := seq(|b|, i requires 0 <= i < |b| => ClusterEntry(b[i].0, b[i].1));
    assert Take(ca, MaxClusters) == Take(cb, MaxClusters);
  }

  /** A blank (but non-empty) example passes the emptiness test and is sent as "". */
  lemma BlankExampleSentAsEmpty()
    ensures ClusterEntry(0, LabelDict(None, None, None, Some([" "]))).examples == [""]
  {
    assert DropEmpty([" "]) == [" "];
    assert Sanitize(" ") == "";
  }
}
