/**
 * app/labeling.py: the title/description template and the keyword
 * extractor's wrapper. The KeyBERT model is a function parameter.
 */
module Labeling {
  import opened PySeq
  import opened PyStr

  /** The keyword used when a cluster has none. */
  const FallbackKeyword: string := "general"
  const DescriptionPrefix: string := "Trending videos related to "
  /** Keywords joined into the title. */
  const TitleKeywords: nat := 3
  /** Keywords joined into the description. */
  const DescriptionKeywords: nat := 4
  /** Default `top_n` of `extract_keywords`. */
  const DefaultTopN: nat := 6

  datatype Summary = Summary(title: string, description: string)

  /** The keywords the template uses: `["general"]` for an empty list. */
  function KeywordsOrFallback(keywords: seq<string>): (r: seq<string>)
    ensures |r| > 0
    ensures keywords != [] ==> r == keywords
    ensures keywords == [] ==> r == [FallbackKeyword]
  {
    if |keywords| == 0 then [FallbackKeyword] else keywords
  }

  /**
   * `generate_cluster_summary(keywords)`: the first three keywords joined
   * by " / " and title-cased, and the first four joined by ", " inside the
   * description sentence.
   */
  function GenerateClusterSummary(keywords: seq<string>): (r: Summary)
    ensures var k := KeywordsOrFallback(keywords);
      && r.title == Title(Join(" / ", Take(k, TitleKeywords)))
      && r.description == DescriptionPrefix + Join(", ", Take(k, DescriptionKeywords)) + "."
    ensures |r.title| == |Join(" / ", Take(KeywordsOrFallback(keywords), TitleKeywords))|
    ensures Title(r.title) == r.title
  {
    var k := KeywordsOrFallback(keywords);
    var joined := Join(" / ", Take(k, TitleKeywords));
    TitleIdempotent(joined);
    Summary(Title(joined), DescriptionPrefix + Join(", ", Take(k, DescriptionKeywords)) + ".")
  }

  /** With no keywords the summary is about "general". */
  lemma SummaryOfNoKeywords()
    ensures GenerateClusterSummary([]) ==
      Summary("General", "Trending videos related to general.")
  {
    var k := KeywordsOrFallback([]);
    assert Take(k, TitleKeywords) == [FallbackKeyword];
    assert Take(k, DescriptionKeywords) == [FallbackKeyword];
    TitleOfFallback();
    DescriptionOfFallback();
  }

  lemma DescriptionOfFallback()
    ensures DescriptionPrefix + FallbackKeyword + "." == "Trending videos related to general."
  {
  }

  lemma TitleOfFallback()
    ensures Title(FallbackKeyword) == "General"
  {
    var s := FallbackKeyword;
    var t := Title(s);
    assert IsCased(s[0]) && IsCased(s[1]) && IsCased(s[2]) && IsCased(s[3]) && IsCased(s[4]) && IsCased(s[5]);
    assert t[0] == UpperChar('g') == 'G';
    assert t[1] == LowerChar('e') == 'e';
    assert t[2] == LowerChar('n') == 'n';
    assert t[3] == LowerChar('e') == 'e';
    assert t[4] == LowerChar('r') == 'r';
    assert t[5] == LowerChar('a') == 'a';
    assert t[6] == LowerChar('l') == 'l';
  }

  /** Keywords after the fourth change neither the title nor the description. */
  lemma SummaryIgnoresLaterKeywords(a: seq<string>, b: seq<string>)
    requires Take(a, DescriptionKeywords) == Take(b, DescriptionKeywords)
    ensures GenerateClusterSummary(a) == GenerateClusterSummary(b)
  {
    var ka := KeywordsOrFallback(a);
    var kb := KeywordsOrFallback(b);
    assert |a| == 0 <==> |b| == 0;
    assert Take(ka, DescriptionKeywords) == Take(kb, DescriptionKeywords);
    assert Take(ka, TitleKeywords) == Take(Take(ka, DescriptionKeywords), TitleKeywords);
    assert Take(kb, TitleKeywords) == Take(Take(kb, DescriptionKeywords), TitleKeywords);
  }

  /**
   * `extract_keywords(examples, top_n)`: nothing for no examples (the model
   * is not asked); otherwise the phrase of each (phrase, score) pair that the
   * model returns for the space-joined examples, in the model's order.
   */
  function ExtractKeywords<S>(examples: seq<string>, topN: nat, model: (string, nat) -> seq<(string, S)>): (r: seq<string>)
    ensures |examples| == 0 ==> r == []
    ensures |examples| > 0 ==>
      var pairs := model(Join(" ", examples), topN);
      |r| == |pairs| && forall i | 0 <= i < |r| :: r[i] == pairs[i].0
  {
    if |examples| == 0 then []
    else
      var pairs := model(Join(" ", examples), topN);
      seq(|pairs|, i requires 0 <= i < |pairs| => pairs[i].0)
  }
}
