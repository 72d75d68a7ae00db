/**
 * The example cleaner shared by app/compress.py and app/main.py: both
 * define `clean_example` with the same steps and differ only in their
 * blacklist of spam phrases.
 */
module ExampleCleaning {
  import opened PyStr
  import opened PySeq

  /** Default `max_len` of both `clean_example` functions. */
  const DefaultMaxLen: nat := 140

  /** Some blacklisted phrase occurs in the lower-cased text. */
  predicate Blacklisted(text: string, blacklist: seq<string>) {
    exists b | b in blacklist :: Contains(Lower(text), b)
  }

  /** `text.split(".")[0]`. */
  function FirstSentence(text: string): string {
    Before(text, '.')
  }

  /** `text.split(".")[0][:max_len].strip()`: the kept part of an example. */
  function Shorten(text: string, maxLen: nat): (r: string)
    ensures '.' !in r
    ensures |r| <= maxLen
    ensures NoEdgeSpace(r)
    ensures exists i, j | 0 <= i <= j <= |text| :: r == text[i..j]
    ensures r == "" <==> AllSpace(Take(FirstSentence(text), maxLen))
    ensures var cut := Take(FirstSentence(text), maxLen);
      exists i, j | 0 <= i <= j <= |cut| ::
        r == cut[i..j] && AllSpace(cut[..i]) && AllSpace(cut[j..])
  {
    var f := FirstSentence(text);
    var u := Take(f, maxLen);
    var i, j := StripStart(u), StripEnd(u);
    var r := Strip(u);
    assert '.' !in r by {
      StripChars(u);
      assert forall c | c in u :: c in f;
    }
    assert |r| <= maxLen by {
      assert |r| == j - i <= |u|;
    }
    assert i <= j <= |text| && r == text[i..j] by {
      PrefixSlice(u, f, text, i, j);
    }
    r
  }

  /**
   * `clean_example(text, max_len)` with the given blacklist: empty for an
   * empty or spammy text, otherwise the first sentence cut to `maxLen`
   * characters and stripped.
   */
  function Clean(text: string, maxLen: nat, blacklist: seq<string>): (r: string)
    ensures text == "" ==> r == ""
    ensures Blacklisted(text, blacklist) ==> r == ""
    ensures r == "" <==>
      (text == "" || Blacklisted(text, blacklist) || AllSpace(Take(FirstSentence(text), maxLen)))
    ensures text != "" && !Blacklisted(text, blacklist) ==> r == Shorten(text, maxLen)
    ensures '.' !in r
    ensures |r| <= maxLen
    ensures NoEdgeSpace(r)
    ensures exists i, j | 0 <= i <= j <= |text| :: r == text[i..j]
  {
    if text == "" || Blacklisted(text, blacklist) then
      assert text[0..0] == "";
      ""
    else Shorten(text, maxLen)
  }

  /**
   * Only the text before the first '.' is kept: a first sentence that is
   * already stripped, short enough and not spam comes back unchanged,
   * whatever follows the '.'.
   */
  lemma FirstSentenceKept(sentence: string, rest: string, maxLen: nat, blacklist: seq<string>)
    requires '.' !in sentence && NoEdgeSpace(sentence) && |sentence| <= maxLen
    requires !Blacklisted(sentence + "." + rest, blacklist)
    ensures Clean(sentence + "." + rest, maxLen, blacklist) == sentence
  {
    BeforeFirst(sentence, '.', rest);
    StripIdempotent(sentence);
  }

  /** `[clean_example(e) for e in xs]`. */
  function CleanEach(xs: seq<string>, maxLen: nat, blacklist: seq<string>): (r: seq<string>)
    ensures |r| == |xs|
    ensures forall i | 0 <= i < |xs| :: r[i] == Clean(xs[i], maxLen, blacklist)
  {
    seq(|xs|, i requires 0 <= i < |xs| => Clean(xs[i], maxLen, blacklist))
  }

  /** A slice of a text that is not blacklisted is not blacklisted either. */
  lemma NotBlacklistedSlice(text: string, i: int, j: int, blacklist: seq<string>)
    requires 0 <= i <= j <= |text|
    requires !Blacklisted(text, blacklist)
    ensures !Blacklisted(text[i..j], blacklist)
  {
    forall b | b in blacklist ensures !Contains(Lower(text[i..j]), b) {
      LowerSlice(text, i, j);
      if Contains(Lower(text)[i..j], b) {
        ContainsSlice(Lower(text), i, j, b);
      }
    }
  }

  /** Cleaning a cleaned example changes nothing. */
  lemma CleanIdempotent(text: string, maxLen: nat, blacklist: seq<string>)
    ensures Clean(Clean(text, maxLen, blacklist), maxLen, blacklist) == Clean(text, maxLen, blacklist)
  {
    var r := Clean(text, maxLen, blacklist);
    if r != "" {
      var i, j :| 0 <= i <= j <= |text| && r == text[i..j];
      NotBlacklistedSlice(text, i, j, blacklist);
      assert FirstSentence(r) == r;
      assert Take(r, maxLen) == r;
      StripIdempotent(r);
      assert Shorten(r, maxLen) == r;
    }
  }

  /**
   * A longer blacklist only empties more examples: whatever survives it is
   * cleaned exactly as with the shorter one.
   */
  lemma CleanLongerBlacklist(text: string, maxLen: nat, short: seq<string>, long: seq<string>)
    requires forall b | b in short :: b in long
    ensures Clean(text, maxLen, long) != "" ==> Clean(text, maxLen, short) == Clean(text, maxLen, long)
    ensures Clean(text, maxLen, short) == "" ==> Clean(text, maxLen, long) == ""
  {
  }
}
