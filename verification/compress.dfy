/** app/compress.py: the compact per-cluster summary. */
module Compress {
  import opened Wrappers
  import opened PySeq
  import opened PyStr
  import opened PyDict
  import opened Schemas
  import opened ExampleCleaning

  /** The three spam phrases of app/compress.py. */
  const Blacklist: seq<string> := ["telegram", "link in bio", "join group"]

  /** At most this many keywords are kept. */
  const MaxKeywords: nat := 8
  /** At most this many raw examples are cleaned. */
  const MaxExamples: nat := 3

  /** `clean_example(text, max_len)` of app/compress.py. */
  function CleanExample(text: string, maxLen: nat): (r: string)
    ensures text == "" ==> r == ""
    ensures Contains(Lower(text), "telegram") ==> r == ""
    ensures Contains(Lower(text), "link in bio") ==> r == ""
    ensures Contains(Lower(text), "join group") ==> r == ""
    ensures r != "" ==> forall b | b in Blacklist :: !Contains(Lower(text), b)
    ensures r == "" <==>
      text == "" || Blacklisted(text, Blacklist) || AllSpace(Take(FirstSentence(text), maxLen))
    ensures text != "" && !Blacklisted(text, Blacklist) ==> r == Shorten(text, maxLen)
    ensures '.' !in r && |r| <= maxLen && NoEdgeSpace(r)
    ensures exists i, j | 0 <= i <= j <= |text| :: r == text[i..j]
  {
    assert Blacklist[0] == "telegram" && Blacklist[1] == "link in bio" && Blacklist[2] == "join group";
    Clean(text, maxLen, Blacklist)
  }

  /** Cleaning a cleaned example changes nothing. */
  lemma CleanExampleIdempotent(text: string, maxLen: nat)
    ensures CleanExample(CleanExample(text, maxLen), maxLen) == CleanExample(text, maxLen)
  {
    CleanIdempotent(text, maxLen, Blacklist);
  }

  datatype Compressed = Compressed(
    clusterId: int,
    title: string,
    keywords: seq<string>,
    topExamples: seq<string>,
    videoCount: nat)

  /** The compressed entry of one `(cid, cluster)` item. */
  function CompressOne(cid: int, cluster: LabelDict): (c: Compressed)
    ensures c.clusterId == cid
    ensures c.title == cluster.title.GetOr("")
    ensures c.keywords == Take(cluster.keywords.GetOr([]), MaxKeywords)
    ensures |c.topExamples| <= MaxExamples
    ensures "" !in c.topExamples
    ensures var cleaned := CleanEach(Take(cluster.examples.GetOr([]), MaxExamples), DefaultMaxLen, Blacklist);
      && Subseq(c.topExamples, cleaned)
      && |c.topExamples| == |cleaned| - Count(cleaned, "")
    ensures c.videoCount == |cluster.examples.GetOr([])|
  {
    var examples := Take(cluster.examples.GetOr([]), MaxExamples);
    Compressed(
      cid,
      cluster.title.GetOr(""),
      Take(cluster.keywords.GetOr([]), MaxKeywords),
      DropEmpty(CleanEach(examples, DefaultMaxLen, Blacklist)),
      |cluster.examples.GetOr([])|)
  }

  /**
   * `compress_clusters(raw_clusters)`: one entry per cluster, in the
   * dict's order.
   */
  function CompressClusters(raw: Dict<int, LabelDict>): (r: seq<Compressed>)
    ensures |r| == |raw|
    ensures forall i | 0 <= i < |raw| :: r[i] == CompressOne(raw[i].0, raw[i].1)
  {
    seq(|raw|, i requires 0 <= i < |raw| => CompressOne(raw[i].0, raw[i].1))
  }

  /** One cluster's compressed examples are already clean. */
  lemma CompressedExamplesClean(cid: int, cluster: LabelDict, e: string)
    requires e in CompressOne(cid, cluster).topExamples
    ensures e != "" && CleanExample(e, DefaultMaxLen) == e
  {
    var ex := Take(cluster.examples.GetOr([]), MaxExamples);
    var cleaned := CleanEach(ex, DefaultMaxLen, Blacklist);
    SubseqMembers(CompressOne(cid, cluster).topExamples, cleaned);
    var k :| 0 <= k < |cleaned| && cleaned[k] == e;
    assert e == Clean(ex[k], DefaultMaxLen, Blacklist);
    CleanIdempotent(ex[k], DefaultMaxLen, Blacklist);
    assert CleanExample(e, DefaultMaxLen) == Clean(e, DefaultMaxLen, Blacklist);
  }

  /** Compressed examples are already clean: cleaning them again changes nothing. */
  lemma TopExamplesAreClean(raw: Dict<int, LabelDict>)
    ensures forall c, e | c in CompressClusters(raw) && e in c.topExamples ::
      e != "" && CleanExample(e, DefaultMaxLen) == e
  {
    var r := CompressClusters(raw);
    forall c, e | c in r && e in c.topExamples
      ensures e != "" && CleanExample(e, DefaultMaxLen) == e
    {
      var i :| 0 <= i < |raw| && r[i] == c;
      CompressedExamplesClean(raw[i].0, raw[i].1, e);
    }
  }

  /** The compressed example count never exceeds the uncapped video count. */
  lemma TopExamplesWithinCount(raw: Dict<int, LabelDict>)
    ensures forall c | c in CompressClusters(raw) :: |c.topExamples| <= c.videoCount
  {
    forall c | c in CompressClusters(raw) ensures |c.topExamples| <= c.videoCount {
      var i :| 0 <= i < |raw| && CompressClusters(raw)[i] == c;
      var ex := Take(raw[i].1.examples.GetOr([]), MaxExamples);
      assert |DropEmpty(CleanEach(ex, DefaultMaxLen, Blacklist))| <= |ex|;
    }
  }
}
