/**
 * app/gemini_client.py: recovering a JSON value from model output and the
 * one-retry conversation with the model. The model call and the JSON parser
 * are parameters; the prompt is kept as the two values it is built from.
 */
module GeminiClient {
  import opened Wrappers
  import opened PyExceptions
  import opened PyStr
  import opened PyDict
  import opened GeminiPayload

  /** A decoded JSON value; objects keep their key order. */
  datatype Json =
    | JNull
    | JBool(b: bool)
    | JNumber(n: real)
    | JString(s: string)
    | JArray(items: seq<Json>)
    | JObject(fields: Dict<string, Json>)

  // ------------------------------------------------------------ extract_json

  predicate IsOpener(c: char) { c == '{' || c == '[' }

  /** The bracket that closes an opening one. */
  function Closer(c: char): char {
    if c == '{' then '}' else ']'
  }

  /** The last position holding `c`, if any. */
  function LastIndexOf(t: string, c: char): (r: Option<nat>)
    ensures r.Some? ==> r.value < |t| && t[r.value] == c
    ensures r.Some? ==> forall k | r.value < k < |t| :: t[k] != c
    ensures r.None? ==> forall k | 0 <= k < |t| :: t[k] != c
  {
    if |t| == 0 then None
    else if t[|t| - 1] == c then Some(|t| - 1)
    else LastIndexOf(t[..|t| - 1], c)
  }

  /**
   * The pattern `(\{.*\}|\[.*\])` (with `.` matching newlines) matches at
   * `i` exactly when `t[i]` opens a bracket whose closing kind occurs later.
   */
  predicate MatchStartsAt(t: string, i: nat) {
    && i < |t|
    && IsOpener(t[i])
    && exists j | i < j < |t| :: t[j] == Closer(t[i])
  }

  function FirstMatchFrom(t: string, i: nat): (r: Option<nat>)
    requires i <= |t|
    ensures r.Some? ==> i <= r.value && MatchStartsAt(t, r.value)
    ensures r.Some? ==> forall k | i <= k < r.value :: !MatchStartsAt(t, k)
    ensures r.None? ==> forall k | i <= k < |t| :: !MatchStartsAt(t, k)
    decreases |t| - i
  {
    if i == |t| then None
    else if MatchStartsAt(t, i) then Some(i)
    else FirstMatchFrom(t, i + 1)
  }

  /**
   * `re.search` of the pattern: the span `[lo, hi)` starts at the leftmost
   * position where a match can start and, the star being greedy, ends just
   * after the LAST closing bracket of the opener's kind.
   */
  function FindSpan(t: string): (r: Option<(nat, nat)>)
    ensures r.None? <==> forall k | 0 <= k < |t| :: !MatchStartsAt(t, k)
    ensures r.Some? ==>
      var (lo, hi) := r.value;
      && lo + 1 < hi <= |t|
      && MatchStartsAt(t, lo)
      && (forall k | 0 <= k < lo :: !MatchStartsAt(t, k))
      && t[hi - 1] == Closer(t[lo])
      && (forall k | hi <= k < |t| :: t[k] != Closer(t[lo]))
  {
    match FirstMatchFrom(t, 0)
    case None => None
    case Some(lo) =>
      var last := LastIndexOf(t, Closer(t[lo]));
      if last.Some? && lo < last.value then Some((lo, last.value + 1))
      else None
  }

  /** Python's `None` for a decoded `null`, the value otherwise. */
  function NonNull(v: Json): (r: Option<Json>)
    ensures r.None? <==> v.JNull?
    ensures r.Some? ==> r.value == v
  {
    if v.JNull? then None else Some(v)
  }

  /**
   * `extract_json(text)`: parse the stripped text; failing that, parse the
   * first bracketed span in it; `None` when neither parses. A decoded `null`
   * is `None` too, and a direct parse that yields `null` is not retried on
   * the span.
   */
  function ExtractJson(text: string, parse: string -> Option<Json>): (r: Option<Json>)
    ensures r != Some(JNull)
    ensures var s := Strip(text);
      parse(s).Some? ==> r == NonNull(parse(s).value)
    ensures var s := Strip(text);
      parse(s).None? && FindSpan(s).None? ==> r == None
    ensures var s := Strip(text);
      parse(s).None? && FindSpan(s).Some? ==>
        var span := s[FindSpan(s).value.0..FindSpan(s).value.1];
        r == if parse(span).Some? then NonNull(parse(span).value) else None
    ensures r.Some? ==>
      var s := Strip(text);
      || parse(s) == r
      || (FindSpan(s).Some? && parse(s[FindSpan(s).value.0..FindSpan(s).value.1]) == r)
  {
    var s := Strip(text);
    match parse(s)
    case Some(v) => NonNull(v)
    case None =>
      match FindSpan(s)
      case None => None
      case Some((lo, hi)) =>
        match parse(s[lo..hi])
        case Some(v) => NonNull(v)
        case None => None
  }

  /** Stripping first changes nothing: `extract_json` strips its input itself. */
  lemma ExtractJsonOfStripped(text: string, parse: string -> Option<Json>)
    ensures ExtractJson(Strip(text), parse) == ExtractJson(text, parse)
  {
    StripIdempotent(Strip(text));
  }

  /**
   * An object with noise around it is recovered when the whole text does not
   * parse, the noise before it opens no bracket and the noise after it closes
   * no brace.
   */
  lemma ExtractJsonFromNoise(pre: string, obj: string, post: string, v: Json, parse: string -> Option<Json>)
    requires NoEdgeSpace(pre + obj + post)
    requires forall k | 0 <= k < |pre| :: !IsOpener(pre[k])
    requires |obj| >= 2 && obj[0] == '{' && obj[|obj| - 1] == '}'
    requires forall k | 0 <= k < |post| :: post[k] != '}'
    requires parse(pre + obj + post) == None
    requires parse(obj) == Some(v) && v != JNull
    ensures ExtractJson(pre + obj + post, parse) == Some(v)
  {
    var s := pre + obj + post;
    StripIdempotent(s);
    var lo := |pre|;
    var hi := |pre| + |obj|;
    assert s[lo] == '{' && s[hi - 1] == '}';
    assert MatchStartsAt(s, lo);
    forall k | 0 <= k < lo ensures !MatchStartsAt(s, k) {
      assert s[k] == pre[k];
    }
    forall k | hi <= k < |s| ensures s[k] != '}' {
      assert s[k] == post[k - hi];
    }
    var span := FindSpan(s);
    assert span.Some? && span.value.0 == lo;
    assert span.value.1 == hi;
    assert s[lo..hi] == obj;
  }

  // ------------------------------------------------- analyze_clusters_with_gemini

  datatype GenerationConfig = GenerationConfig(
    responseMimeType: string,
    temperature: real,
    maxOutputTokens: nat)

  const FirstAttempt := GenerationConfig("application/json", 0.2, 4096)
  const RetryAttempt := GenerationConfig("application/json", 0.1, 3072)

  /** The finish reason that triggers the single retry. */
  const TruncatedReason: string := "MAX_TOKENS"
  const EmptyResponseError: string := "Gemini returned empty response"
  const MalformedError: string := "Gemini output malformed, returning raw text"

  /**
   * The prompt, as the two values the fixed template is filled with: the
   * payload's query and the JSON rendering of its clusters.
   */
  datatype Prompt = Prompt(query: string, clustersJson: string)

  datatype ModelRequest = ModelRequest(prompt: Prompt, config: GenerationConfig)

  /**
   * What the model call returns: the first candidate's finish reason (`None`
   * when there is no candidate) and the response text (`None` when the
   * response has none, where reading it raises).
   */
  datatype ModelResponse = ModelResponse(finishReason: Option<string>, text: Option<string>)

  /** The collaborators: JSON rendering, the model call and `json.loads`. */
  datatype Client = Client(
    dumps: seq<PayloadCluster> -> string,
    generate: ModelRequest -> Result<ModelResponse, string>,
    parse: string -> Option<Json>)

  datatype Status = Succeeded | Errored(message: string)

  /** The returned dict: `cluster_analysis`, `raw_text`, and `success` or `error`. */
  datatype Analysis = Analysis(clusterAnalysis: Json, rawText: string, status: Status)

  /** The requests sent, in order, and how the call ended. */
  datatype Run = Run(calls: seq<ModelRequest>, outcome: Result<Analysis, PyException>)

  const NoCandidate := IndexError("list index out of range")
  const NoText := ValueError("response has no text")
  const NotAnObject := AttributeError("get")

  /** The dict returned for the final, stripped response text. */
  function Conclude(rawText: string, parse: string -> Option<Json>): (r: Result<Analysis, PyException>)
    ensures rawText == "" <==> r == Success(Analysis(JArray([]), "", Errored(EmptyResponseError)))
    ensures r.Success? ==> r.value.rawText == rawText
    ensures r.Success? && r.value.status == Succeeded <==>
      rawText != "" && ExtractJson(rawText, parse).Some? && ExtractJson(rawText, parse).value.JObject?
    ensures r.Success? && r.value.status == Succeeded ==>
      r.value.clusterAnalysis ==
        Get(ExtractJson(rawText, parse).value.fields, "cluster_analysis").GetOr(JArray([]))
    ensures r.Success? && r.value.status == Errored(MalformedError) <==>
      rawText != "" && ExtractJson(rawText, parse).None?
    ensures r.Failure? <==>
      rawText != "" && ExtractJson(rawText, parse).Some? && !ExtractJson(rawText, parse).value.JObject?
    ensures r.Failure? ==> r.error == NotAnObject
  {
    if rawText == "" then Success(Analysis(JArray([]), "", Errored(EmptyResponseError)))
    else
      match ExtractJson(rawText, parse)
      case None => Success(Analysis(JArray([]), rawText, Errored(MalformedError)))
      case Some(JObject(fields)) =>
        Success(Analysis(Get(fields, "cluster_analysis").GetOr(JArray([])), rawText, Succeeded))
      case Some(_) => Failure(NotAnObject)
  }

  function PromptFor(payload: Payload, client: Client): Prompt {
    Prompt(payload.query, client.dumps(payload.clusters))
  }

  /** The second attempt, made after a response cut short by the token limit. */
  function Retry(first: ModelRequest, client: Client): (r: Run)
    ensures r.calls == [first, ModelRequest(first.prompt, RetryAttempt)]
  {
    var second := ModelRequest(first.prompt, RetryAttempt);
    match client.generate(second)
    case Failure(e) => Run([first, second], Failure(External(e)))
    case Success(resp) =>
      if resp.text.None? then Run([first, second], Failure(NoText))
      else Run([first, second], Conclude(Strip(resp.text.value), client.parse))
  }

  /**
   * `analyze_clusters_with_gemini(payload)`: one request with the first
   * configuration; exactly one more, with the same prompt and the retry
   * configuration, when the first finished for the token limit.
   */
  function Analyze(payload: Payload, client: Client): (r: Run)
    ensures 1 <= |r.calls| <= 2
    ensures r.calls[0] == ModelRequest(PromptFor(payload, client), FirstAttempt)
    ensures var first := client.generate(r.calls[0]);
      |r.calls| == 2 <==>
        first.Success? && first.value.finishReason == Some(TruncatedReason) && first.value.text.Some?
    ensures |r.calls| == 2 ==> r.calls[1] == ModelRequest(r.calls[0].prompt, RetryAttempt)
    ensures var last := client.generate(r.calls[|r.calls| - 1]);
      last.Failure? ==> r.outcome == Failure(External(last.error))
    ensures var first := client.generate(r.calls[0]);
      first.Success? && first.value.finishReason.None? ==> r.outcome == Failure(NoCandidate)
    ensures var first := client.generate(r.calls[0]);
      var last := client.generate(r.calls[|r.calls| - 1]);
      first.Success? && first.value.finishReason.Some? && last.Success? ==>
        r.outcome == if last.value.text.None? then Failure(NoText)
                     else Conclude(Strip(last.value.text.value), client.parse)
    ensures var last := client.generate(r.calls[|r.calls| - 1]);
      r.outcome.Success? ==>
        && last.Success? && last.value.text.Some?
        && r.outcome == Conclude(Strip(last.value.text.value), client.parse)
    ensures r.outcome.Success? ==> NoEdgeSpace(r.outcome.value.rawText)
  {
    var first := ModelRequest(PromptFor(payload, client), FirstAttempt);
    match client.generate(first)
    case Failure(e) => Run([first], Failure(External(e)))
    case Success(resp) =>
      if resp.finishReason.None? then Run([first], Failure(NoCandidate))
      else if resp.text.None? then Run([first], Failure(NoText))
      else if resp.finishReason.value == TruncatedReason then Retry(first, client)
      else Run([first], Conclude(Strip(resp.text.value), client.parse))
  }

  /** The outlier sample is not part of the prompt, so it never changes the outcome. */
  lemma AnalyzeIgnoresOutliers(p: Payload, q: Payload, client: Client)
    requires p.query == q.query && p.clusters == q.clusters
    ensures Analyze(p, client) == Analyze(q, client)
  {
  }

  /** Without truncation the first response text decides the outcome alone. */
  lemma NoRetryWithoutTruncation(payload: Payload, client: Client)
    requires var first := client.generate(ModelRequest(PromptFor(payload, client), FirstAttempt));
      first.Success? && first.value.finishReason.Some? && first.value.finishReason != Some(TruncatedReason)
      && first.value.text.Some?
    ensures var first := client.generate(ModelRequest(PromptFor(payload, client), FirstAttempt));
      Analyze(payload, client) ==
        Run([ModelRequest(PromptFor(payload, client), FirstAttempt)],
            Conclude(Strip(first.value.text.value), client.parse))
  {
  }

  /** After a truncated first answer, the second answer alone decides the outcome. */
  lemma TruncationRetriedOnce(payload: Payload, client: Client)
    requires var first := client.generate(ModelRequest(PromptFor(payload, client), FirstAttempt));
      first.Success? && first.value.finishReason == Some(TruncatedReason) && first.value.text.Some?
    ensures var req := ModelRequest(PromptFor(payload, client), FirstAttempt);
      var retry := ModelRequest(PromptFor(payload, client), RetryAttempt);
      var second := client.generate(retry);
      Analyze(payload, client) ==
        Run([req, retry],
            if second.Failure? then Failure(External(second.error))
            else if second.value.text.None? then Failure(NoText)
            else Conclude(Strip(second.value.text.value), client.parse))
  {
  }
}
