# Clustering, labelling and idea-analysis service: a Dafny model

The service takes a request with short texts (video titles) and a query. It
clusters the texts, summarises each cluster and asks the Gemini model for
content ideas per cluster. This project models the service's decision logic
and proves properties of it:

- the example cleaners of `app/compress.py` and `app/main.py`
- `compress_clusters` and `compress_unified_labels`
- the bookkeeping of `run_hdbscan`, with the cluster labels as input: outliers, cluster sizes, gap messages and when PCA applies
- `generate_cluster_summary` and the guard and projection of `extract_keywords`
- `sanitize_text` and `build_gemini_payload`
- `extract_json`, and the retry and outcome logic of `analyze_clusters_with_gemini`
- the validation order, error paths and failure fallback of the `/cluster` endpoint

Outside code stays outside the model. The sentence encoder, HDBSCAN, KeyBERT,
the model call and `json.loads` are function-typed parameters. Python dicts
are insertion-ordered association lists (`PyDict.Dict`). A key a dict may
lack is an `Option` field. Exceptions are values of `PyExceptions.PyException`
inside a `Result`.

Modules:

| module | file | source |
|---|---|---|
| `Wrappers`, `PyExceptions` | wrappers.dfy | `Option`, `Result`, Python exceptions |
| `PySeq` | pyseq.dfy | slicing, filtering, counting, subsequences |
| `PyStr` | pystr.dfy | `strip`, `lower`, `title`, `in`, `split`, `join`, `str(int)` |
| `PyDict` | pydict.dfy | insertion-ordered dicts |
| `Schemas` | schemas.dfy | app/schemas.py and the dict shapes |
| `ExampleCleaning` | example_cleaning.dfy | the cleaner shared by both `clean_example`s |
| `GeminiPayload` | gemini_payload.dfy | app/gemini_payload.py |
| `Compress` | compress.dfy | app/compress.py |
| `Clustering` | clustering.dfy | app/clustering.py |
| `Labeling` | labeling.dfy | app/labeling.py |
| `GeminiClient` | gemini_client.dfy | app/gemini_client.py |
| `Service` | service.dfy | app/main.py |

## Model

| member | source | states |
|---|---|---|
| `GeminiPayload.Sanitize` | app/gemini_payload.py:1-15 | Empty input gives "". The result has no double quote, CR, LF or curly apostrophe, no surrounding whitespace, and is no longer than the input. |
| `GeminiPayload.SanitizeFixedPoints` | app/gemini_payload.py:1-15 | `sanitize_text` leaves a string unchanged exactly when it has none of the four characters and no surrounding whitespace. |
| `GeminiPayload.SanitizeIdempotent` | app/gemini_payload.py:1-15 | Sanitising twice equals sanitising once. |
| `GeminiPayload.SanitizeEach` | app/gemini_payload.py:38-41 | Sanitises every keyword in place and order; every result is a sanitiser fixed point. |
| `GeminiPayload.SanitizeNonEmpty` | app/gemini_payload.py:31-35 | The emptiness filter runs on the raw example, before sanitising. |
| `GeminiPayload.ClusterEntry` | app/gemini_payload.py:28-49 | An entry keeps the cluster id. Its title and description are the sanitised fields (default ""). Its examples are the non-empty ones among the first two, each sanitised. Its keywords are the first six, sanitised one by one. |
| `GeminiPayload.NoiseVideos` | app/gemini_payload.py:57-61 | The videos whose `cluster` is -1, as a subsequence of the input in input order. |
| `GeminiPayload.NoiseVideosCount` | app/gemini_payload.py:57-61 | Each video with `cluster` -1 is kept exactly as many times as it occurs; no other video is kept. |
| `GeminiPayload.NoiseTitles` | app/gemini_payload.py:57-61 | Fails with `KeyError('title')` exactly when some video with `cluster` -1 lacks a title; only those videos are read. Otherwise there is one sanitised title per noise video, in order. |
| `GeminiPayload.TitlesOf` | app/gemini_payload.py:57-61 | A list of titles fails with `KeyError('title')` exactly when some video lacks a title. Otherwise it has one sanitised title per video. |
| `GeminiPayload.BuildGeminiPayload` | app/gemini_payload.py:18-67 | Fails exactly when a noise video lacks a title. The query is sanitised. There are min(5, n) cluster entries with per-field caps, and min(3, noise) sanitised noise titles. |
| `GeminiPayload.PayloadIsSanitized` | app/gemini_payload.py:18-67 | Every string in a built payload is a fixed point of the sanitiser. |
| `GeminiPayload.PayloadIgnoresLaterClusters` | app/gemini_payload.py:51-52 | Label entries after the fifth never change the payload. |
| `GeminiPayload.BlankExampleSentAsEmpty` | app/gemini_payload.py:31-35 | The example " " survives the raw emptiness test and is sent as "". |
| `ExampleCleaning.Shorten` | app/main.py:40-41 | The text before the first '.', cut to `max_len`, with its leading and trailing whitespace removed: a slice of that cut with only whitespace around it, itself without edge whitespace. It has no '.', is at most `max_len` long, and is empty exactly when the cut is all whitespace. |
| `ExampleCleaning.Clean` | app/main.py:25-41 | The result is "" exactly when the text is empty, contains a blacklisted phrase in lower case, or has a blank first-sentence cut. A non-empty text with no blacklisted phrase gives `Shorten` of it. |
| `ExampleCleaning.FirstSentenceKept` | app/main.py:40-41 | A first sentence that is already stripped, has at most `max_len` characters and is not spam comes back exactly, whatever follows its '.'. |
| `ExampleCleaning.CleanEach` | app/main.py:61 | Cleans each example in place and order. |
| `ExampleCleaning.NotBlacklistedSlice` | app/main.py:35-38 | A slice of a text with no blacklisted phrase has none either. |
| `ExampleCleaning.CleanIdempotent` | app/main.py:25-41 | Cleaning a cleaned example changes nothing. |
| `ExampleCleaning.CleanLongerBlacklist` | app/main.py:34-38 | A longer blacklist empties at least as many examples and agrees on the ones it keeps. |
| `Compress.CleanExample` | app/compress.py:1-18 | "" exactly when the text is empty, contains "telegram", "link in bio" or "join group" in lower case, or has a blank first-sentence cut. Otherwise the stripped first sentence cut to `max_len` (`ExampleCleaning.Shorten`). |
| `Compress.CleanExampleIdempotent` | app/compress.py:1-18 | Cleaning twice equals cleaning once. |
| `Compress.CompressOne` | app/compress.py:24-39 | Keeps the id and the title (default ""). Keeps the first 8 keywords. The top examples are the cleaned first three with the empty ones removed: a subsequence with no "" and exactly as many entries as there are non-empty cleaned ones. `video_count` counts all raw examples. |
| `Compress.CompressClusters` | app/compress.py:21-41 | One compressed entry per cluster, in dict order. |
| `Compress.CompressedExamplesClean` | app/compress.py:29-31 | Every kept example is non-empty and its own cleaning. |
| `Compress.TopExamplesAreClean` | app/compress.py:21-41 | Across all clusters, kept examples are non-empty and already clean. |
| `Compress.TopExamplesWithinCount` | app/compress.py:29-38 | No entry keeps more examples than its `video_count`. |
| `Clustering.ReductionTarget` | app/clustering.py:17-18 | PCA applies exactly when there are at least 5 vectors. It then keeps min(10, dimension) components. |
| `Clustering.ReductionExceedsSamples` | app/clustering.py:17-18 | For 5 to 9 vectors of dimension at least 10, the code asks for 10 components, more than there are vectors. |
| `Clustering.ReductionTargetCorrected` | app/clustering.py:17-18 | PCA still applies from 5 vectors, but never with more components than vectors, dimensions or 10. From 10 vectors it agrees with the code. |
| `Clustering.Outliers` | app/clustering.py:29 | The strictly increasing list of exactly the indices labelled -1, as many as there are -1 labels. |
| `Clustering.CountInto` | app/clustering.py:32-34 | Counting a label other than -1 raises the total of the sizes by one; -1 changes nothing. Keys stay distinct. |
| `Clustering.CountIntoGet` | app/clustering.py:32-34 | Counting `l` adds one to its size (starting from 0 when absent) and leaves every other size alone; -1 changes nothing. |
| `Clustering.CountIntoKeys` | app/clustering.py:32-34 | A label other than -1 that is not yet a key is appended to the keys; otherwise the keys are unchanged. |
| `Clustering.ClusterSizes` | app/clustering.py:29-34 | Keys are distinct, and the sizes plus the -1 labels add up to the number of labels. |
| `Clustering.SizeOf` | app/clustering.py:31-34 | Every cluster other than -1 maps to its number of labels. Labels that never occur, and -1, are absent. |
| `Clustering.SizesPositive` | app/clustering.py:31-34 | No size is zero, -1 is never a key, and every non-noise label is a key. |
| `Clustering.SizeKeysAreLabels` | app/clustering.py:31-34 | Every key of the size dict is one of the labels. |
| `Clustering.FirstAppearances` | app/clustering.py:31-34 | Reference order for the size dict: the labels other than -1, each once, by first occurrence. It lists only labels that occur, never -1. |
| `Clustering.FirstAppearancesComplete` | app/clustering.py:31-34 | Every label other than -1 is listed. |
| `Clustering.FirstAppearancesOrdered` | app/clustering.py:31-34 | The list is strictly ordered by each label's first position. |
| `Clustering.SizeKeysAreFirstAppearances` | app/clustering.py:31-34 | The size dict's keys are exactly that list, in that order. |
| `Clustering.SizesInFirstAppearanceOrder` | app/clustering.py:31-34 | The size dict lists clusters in the order their labels first appear. |
| `Clustering.GapMessageInjective` | app/clustering.py:36-40 | Different cluster ids give different gap messages. |
| `Clustering.GapMessage` | app/clustering.py:37 | The message is the fixed prefix followed by text that parses back to the cluster id. |
| `Clustering.GapOf` | app/clustering.py:36-40 | Cluster `k` is reported as a gap exactly when it is not -1 and has at least one but fewer than `min_cluster_size` members. |
| `Clustering.Gaps` | app/clustering.py:36-40 | One "Low content volume in cluster k" message per small cluster, in the same order. |
| `Clustering.GapMember` | app/clustering.py:36-40 | A cluster's message is among the gaps exactly when the cluster is small. |
| `Clustering.SmallClusters` | app/clustering.py:36-40 | Exactly the clusters whose size is below `min_cluster_size`, selected from the size dict in its order. |
| `Clustering.SmallClustersDistinct` | app/clustering.py:36-40 | With distinct keys, no small cluster is listed twice. |
| `Clustering.GapsDistinct` | app/clustering.py:36-40 | No gap message is repeated. |
| `Clustering.RunHdbscan` | app/clustering.py:6-47 | Keeps the labels. The outliers are exactly the -1 indices, the sizes are the per-cluster counts, and sizes plus outliers cover all labels. A cluster is reported as a gap exactly when it is non-noise, non-empty and smaller than `min_cluster_size`. There are no `unified_labels` and no `videos`. |
| `Labeling.GenerateClusterSummary` | app/labeling.py:8-16 | Uses "general" for an empty list. The title is the first three keywords joined by " / " and title-cased; it is already in title case. The description is the template around the first four keywords. |
| `Labeling.KeywordsOrFallback` | app/labeling.py:9-10 | An empty keyword list becomes ["general"], and any other list is kept. |
| `Labeling.SummaryOfNoKeywords` | app/labeling.py:8-16 | An empty keyword list gives "General" and "Trending videos related to general.". |
| `Labeling.SummaryIgnoresLaterKeywords` | app/labeling.py:12-14 | Keyword lists that agree on their first four entries get the same summary. |
| `Labeling.ExtractKeywords` | app/labeling.py:22-39 | No examples gives [] without asking the model. Otherwise the result is the phrases of the model's (phrase, score) pairs for the space-joined examples, in the model's order. |
| `GeminiClient.LastIndexOf` | app/gemini_client.py:24 | The last position of a character, or `None` when it does not occur. |
| `GeminiClient.FirstMatchFrom` | app/gemini_client.py:24 | The first position from `i` where the bracket pattern can match. |
| `GeminiClient.FindSpan` | app/gemini_client.py:24-27 | Finds the leftmost opener that has a later closer of its kind, and ends after the last such closer. `None` exactly when no position can start a match. |
| `GeminiClient.NonNull` | app/gemini_client.py:121-124 | A decoded `null` counts as `None`. |
| `GeminiClient.ExtractJson` | app/gemini_client.py:14-32 | A parse of the stripped text decides the result. Failing that, with no bracketed span the result is `None`, and otherwise it is the parse of the first bracketed span (`None` when that fails). A decoded `null` is `None`. |
| `GeminiClient.ExtractJsonOfStripped` | app/gemini_client.py:15 | Stripping the input first changes nothing. |
| `GeminiClient.ExtractJsonFromNoise` | app/gemini_client.py:14-32 | An object is recovered when surrounded by noise that opens no bracket before it and closes no brace after it. |
| `GeminiClient.Conclude` | app/gemini_client.py:113-136 | Blank text gives the empty-response error. An object gives success, with its `cluster_analysis` (default []) and the raw text. Another JSON value raises `AttributeError`. Nothing parsed gives the malformed error, with the raw text. |
| `GeminiClient.Retry` | app/gemini_client.py:98-110 | The retry sends the same prompt with temperature 0.1 and 3072 tokens. |
| `GeminiClient.Analyze` | app/gemini_client.py:35-136 | Makes one or two calls. The first uses the prompt with temperature 0.2 and 4096 tokens. A second call is made exactly when the first returned a candidate and text and finished for `MAX_TOKENS`. A failing call is the outcome, and a missing candidate is `IndexError`. Once the first response has a candidate, the last response's missing text raises `ValueError`, and its text is otherwise stripped and concluded. |
| `GeminiClient.AnalyzeIgnoresOutliers` | app/gemini_client.py:37-80 | The prompt uses only the query and clusters, so the outlier sample never changes the outcome. |
| `GeminiClient.NoRetryWithoutTruncation` | app/gemini_client.py:90-121 | Without truncation there is exactly one call, concluded from the first response's text. |
| `GeminiClient.TruncationRetriedOnce` | app/gemini_client.py:94-110 | After a truncated first answer, the retry request with the same prompt is sent and its response alone decides the outcome: a failure, a missing text, or the concluded stripped text. |
| `Service.CleanExample` | app/main.py:25-41 | "" exactly when the text is empty, contains one of the four spam phrases in lower case, or has a blank first-sentence cut. Otherwise the stripped first sentence cut to `max_len` (`ExampleCleaning.Shorten`). |
| `Service.CleanersAgree` | app/main.py:34 | The endpoint's cleaner empties everything the compress.py cleaner empties, and otherwise agrees with it. |
| `Service.CleanedExamples` | app/main.py:60-62 | The cleaned forms of the first six examples with the empty ones removed: a subsequence with no "" and exactly as many entries as there are non-empty cleaned ones. |
| `Service.CleanedExamplesAreClean` | app/main.py:60-62 | Every cleaned example is its own cleaning. |
| `Service.CompressLabel` | app/main.py:56-70 | Title and description are untouched. Examples become the first min(3, n) of the n cleaned ones. Keywords are the model's for all cleaned ones, and [] when none survive. |
| `Service.CompressUnifiedLabels` | app/main.py:47-72 | Same keys in the same order, each label compressed. |
| `Service.CompressedLabelClean` | app/main.py:60-65 | A compressed label's examples are non-empty and clean. |
| `PySeq.DropEmptyUnique` | app/main.py:61-62 | A subsequence of the cleaned list with no "" and as many entries as its non-empty ones is exactly the filtered list, so the counts in `CompressOne` and `CleanedExamples` pin their examples. |
| `Service.CompressedLabelsClean` | app/main.py:47-72 | Every compressed entry has examples, all non-empty and clean. |
| `Service.CompressExamplesStable` | app/main.py:47-72 | Compressing a compressed label again keeps its examples. |
| `Service.Validate` | app/main.py:83-99 | Passes exactly when there are at least two texts, a query that is not all whitespace, and no blank text. Fewer than two texts is 400 whatever else holds. Then a missing query raises, then a blank query is 400. |
| `Service.AttachGemini` | app/main.py:134-156 | The analysis is present exactly when the payload builds and the analysis succeeds. The raw text is always "". |
| `Service.RawTextDropped` | app/main.py:151 | A non-empty raw text from a successful analysis never reaches the response. |
| `Service.AttachGeminiCorrected` | app/main.py:134-156 | Same analysis field as `AttachGemini`. The raw text is the analysis's own, or "" on failure. |
| `Service.MalformedOutputReachesCaller` | app/gemini_client.py:132-136 | An unparseable answer reaches the caller as [] plus its non-empty raw text. |
| `Service.ClusterTexts` | app/main.py:80-159 | Never succeeds. Validation errors come first. An encoder failure is 500 with the message. After that, `run_hdbscan` rejects the `texts` keyword. |
| `Service.DeclaredRequestCrashes` | app/main.py:89 | A request of the declared schema with two texts raises `AttributeError`. |
| `Service.ValidRequestStillFails` | app/main.py:116-121 | A request that validates and encodes still raises `TypeError`. |
| `Service.CompressIfLabelled` | app/main.py:126-129 | Compresses `unified_labels` only when present, and changes no other field. |
| `Service.ClusterTextsCorrected` | app/main.py:80-159 | Succeeds exactly when validation, encoding and clustering succeed. Validation errors come first, then an encoder failure is 500 with the message, then a clusterer exception propagates. The response is the bookkeeping of the clusterer's labels, with the corrected analysis fields. |
| `Service.AnalysisFailureDegrades` | app/main.py:153-156 | A failed analysis still returns the clustering result, with `None` and "". |
| `Service.CorrectedResultCountsLabels` | app/main.py:115-121 | A successful response's labels are the ones the clusterer returned, and its sizes plus outliers cover them. |

## Left out

- Numerics: `normalize`, PCA and HDBSCAN are not modelled. The clusterer is a parameter that returns a label sequence or fails with a message (`Service.Collaborators`). Its labels are taken as it returns them; that there is one label per vector is the clusterer's promise and is not checked. `Clustering.ReductionTarget` only says whether PCA applies and how many components it asks for.
- PCA component count: scikit-learn's PCA refuses more components than there are samples. That check lives in the library, so a refused request appears only as a clusterer failure. The component count itself is recorded under Findings.
- Outside code: the sentence encoder, KeyBERT's ranking, the Gemini client library and `json.loads` are parameters. The prompt is modelled as the two values that fill its fixed text (`GeminiClient.Prompt`), not as the text itself. The API-key setup and `load_dotenv` are left out.
- The FastAPI app, the `/health` route and every `print` are left out. An uncaught exception is `Service.Crashed`; the status code FastAPI would send for it is not modelled.
- `PyStr.Lower` and `PyStr.Title` case only ASCII letters. Python's `lower()` and `title()` are Unicode-wide.
- `int(cid)` in both payload builders is the identity, because cluster ids are already integers here.
- `max_len` is a natural number. A negative `max_len` slices from the end in Python; no caller passes one.
- Fields present with the value `None` (for example `examples: None`) are not modelled. Such a field is either missing (`None` in the model) or holds a value. `min_cluster_size` and `min_samples` are integers, not `Optional[int]`.
- `GeminiClient.Analyze`: the finish reason is a string compared with "MAX_TOKENS". The client library reports an enum member, and whether it ever equals that string is left open. The retry is modelled as the code states it.
- `Service.ClusterTextsCorrected` requires a query. With `query` declared on the request schema, the request parser already rejects a body without one.
- The only gap findings are the per-cluster "Low content volume" messages (`Clustering.Gaps`).
- Keywords come from KeyBERT over the cleaned examples. `extract_keywords` returns [] for no examples; only `generate_cluster_summary` falls back to "general".
- JSON recovery uses the greedy bracket pattern of `extract_json` (`GeminiClient.FindSpan`).

## Findings

| source | as written | input that shows it | evidently intended | confidence | as-written member | corrected member |
|---|---|---|---|---|---|---|
| app/main.py:89 and app/main.py:116-121 | The handler reads `payload.query`, which the request schema (app/schemas.py:6-9) does not declare, and calls `run_hdbscan` with a `texts=` keyword it does not accept (app/clustering.py:6-10). Every request either fails validation or raises. | `{"texts": ["cats", "dogs"]}` raises `AttributeError`. With a query added, it raises `TypeError`. | The schema carries `query`, `run_hdbscan` gets only the arguments it takes, and a valid request returns the clustering result. | high, not executed | `Service.ClusterTexts` (with `Service.DeclaredRequestCrashes`, `Service.ValidRequestStillFails`) | `Service.ClusterTextsCorrected` |
| app/main.py:151 | `gemini_raw_text` is read from the key `gemini_raw_text`, but the analysis dict stores it under `raw_text` (app/gemini_client.py:127). The response always carries "". | Any successful analysis with a non-empty model answer, such as a malformed one. | The analysis's `raw_text` is passed through, so a malformed answer reaches the caller. | high, not executed | `Service.AttachGemini` (with `Service.RawTextDropped`) | `Service.AttachGeminiCorrected` (with `Service.MalformedOutputReachesCaller`) |
| app/clustering.py:17-18 | From 5 vectors on, PCA is asked for min(10, dimension) components, however few vectors there are. | 5 to 9 texts, whose sentence embeddings have 384 dimensions: PCA is asked for 10 components from fewer than 10 samples, which scikit-learn refuses, so the request fails. | The component count is also capped by the number of vectors. | medium, not executed | `Clustering.ReductionTarget` (with `Clustering.ReductionExceedsSamples`) | `Clustering.ReductionTargetCorrected` |
