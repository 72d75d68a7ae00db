/**
 * Python `str` methods used by the service, on Dafny strings (`seq<char>`).
 * `strip` uses Python's full whitespace set; `lower` and `title` are modelled
 * on the ASCII alphabet only (other characters are left unchanged and
 * counted as uncased).
 */
module PyStr {

  /** Python's `str.isspace()` for one character. */
  predicate IsSpace(c: char) {
    || c == ' '
    || ('\t' <= c <= '\r')
    || ('\U{1c}' <= c <= '\U{1f}')
    || c == '\U{85}' || c == '\U{a0}' || c == '\U{1680}'
    || ('\U{2000}' <= c <= '\U{200a}')
    || c == '\U{2028}' || c == '\U{2029}' || c == '\U{202f}' || c == '\U{205f}' || c == '\U{3000}'
  }

  predicate AllSpace(s: string) {
    forall k | 0 <= k < |s| :: IsSpace(s[k])
  }

  /** No whitespace at either end: what `strip()` leaves behind. */
  predicate NoEdgeSpace(s: string) {
    |s| > 0 ==> !IsSpace(s[0]) && !IsSpace(s[|s| - 1])
  }

  /** First index at or after `i` that is not whitespace (or `|s|`). */
  function StartFrom(s: string, i: nat): (r: nat)
    requires i <= |s|
    ensures i <= r <= |s|
    ensures forall k | i <= k < r :: IsSpace(s[k])
    ensures r < |s| ==> !IsSpace(s[r])
    decreases |s| - i
  {
    if i < |s| && IsSpace(s[i]) then StartFrom(s, i + 1) else i
  }

  /** Largest end `r` in `lo..hi` such that `s[lo..r]` has no trailing whitespace. */
  function EndFrom(s: string, lo: nat, hi: nat): (r: nat)
    requires lo <= hi <= |s|
    ensures lo <= r <= hi
    ensures forall k | r <= k < hi :: IsSpace(s[k])
    ensures r > lo ==> !IsSpace(s[r - 1])
    decreases hi
  {
    if hi > lo && IsSpace(s[hi - 1]) then EndFrom(s, lo, hi - 1) else hi
  }

  /** Where the stripped part of `s` starts. */
  function StripStart(s: string): (i: nat)
    ensures i <= |s|
  {
    StartFrom(s, 0)
  }

  /** Where the stripped part of `s` ends. */
  function StripEnd(s: string): (j: nat)
    ensures StripStart(s) <= j <= |s|
  {
    EndFrom(s, StripStart(s), |s|)
  }

  /** Python's `s.strip()`: the slice of `s` between its edge whitespace. */
  function Strip(s: string): (r: string)
    ensures r == s[StripStart(s)..StripEnd(s)]
    ensures AllSpace(s[..StripStart(s)]) && AllSpace(s[StripEnd(s)..])
    ensures NoEdgeSpace(r)
    ensures AllSpace(s) <==> r == ""
  {
    var i := StripStart(s);
    var j := StripEnd(s);
    assert AllSpace(s[..i]);
    assert AllSpace(s[j..]);
    assert i < j ==> s[i..j][0] == s[i] && s[i..j][j - i - 1] == s[j - 1];
    s[i..j]
  }

  /** `strip()` introduces no character. */
  lemma StripChars(s: string)
    ensures forall c | c in Strip(s) :: c in s
  {
    var i, j := StripStart(s), StripEnd(s);
    forall c | c in s[i..j] ensures c in s {
      var k :| 0 <= k < j - i && s[i..j][k] == c;
      assert s[i + k] == c;
    }
  }

  /** `strip()` leaves an already stripped string alone. */
  lemma StripIdempotent(s: string)
    requires NoEdgeSpace(s)
    ensures Strip(s) == s
  {
    assert StartFrom(s, 0) == 0;
    assert EndFrom(s, 0, |s|) == |s|;
  }

  // ---------------------------------------------------------------- case

  predicate IsUpper(c: char) { 'A' <= c <= 'Z' }
  predicate IsLower(c: char) { 'a' <= c <= 'z' }
  /** Cased characters: the ASCII letters. */
  predicate IsCased(c: char) { IsUpper(c) || IsLower(c) }

  function LowerChar(c: char): (r: char)
    ensures IsCased(r) == IsCased(c)
    ensures IsUpper(c) ==> IsLower(r)
    ensures !IsUpper(r)
  {
    if IsUpper(c) then (c as int - 'A' as int + 'a' as int) as char else c
  }

  function UpperChar(c: char): (r: char)
    ensures IsCased(r) == IsCased(c)
    ensures IsLower(c) ==> IsUpper(r)
    ensures !IsLower(r)
  {
    if IsLower(c) then (c as int - 'a' as int + 'A' as int) as char else c
  }

  /** Re-casing a character already in the target case changes nothing. */
  lemma CaseIdempotent(c: char)
    ensures LowerChar(LowerChar(c)) == LowerChar(c)
    ensures UpperChar(UpperChar(c)) == UpperChar(c)
    ensures LowerChar(UpperChar(c)) == LowerChar(c)
    ensures UpperChar(LowerChar(c)) == UpperChar(c)
  {
  }

  /** Python's `s.lower()`. */
  function Lower(s: string): (r: string)
    ensures |r| == |s|
  {
    seq(|s|, k requires 0 <= k < |s| => LowerChar(s[k]))
  }

  /** Lower-casing commutes with slicing. */
  lemma LowerSlice(s: string, i: int, j: int)
    requires 0 <= i <= j <= |s|
    ensures Lower(s[i..j]) == Lower(s)[i..j]
  {
  }

  /**
   * Python's `s.title()`: a cased character that follows a cased character
   * is lower-cased, every other character is upper-cased. `prevCased` says
   * whether the character before `s` was cased.
   */
  function TitleFrom(s: string, prevCased: bool): (r: string)
    ensures |r| == |s|
    ensures forall k | 0 <= k < |s| ::
      r[k] == if (if k == 0 then prevCased else IsCased(s[k - 1])) then LowerChar(s[k]) else UpperChar(s[k])
  {
    if |s| == 0 then ""
    else
      var c := if prevCased then LowerChar(s[0]) else UpperChar(s[0]);
      [c] + TitleFrom(s[1..], IsCased(s[0]))
  }

  function Title(s: string): (r: string)
    ensures |r| == |s|
    ensures forall k | 0 <= k < |s| ::
      r[k] == if k > 0 && IsCased(s[k - 1]) then LowerChar(s[k]) else UpperChar(s[k])
  {
    TitleFrom(s, false)
  }

  /** Title-casing a title-cased string changes nothing. */
  lemma TitleIdempotent(s: string)
    ensures Title(Title(s)) == Title(s)
  {
    var t := Title(s);
    forall k | 0 <= k < |s| ensures Title(t)[k] == t[k] {
      CaseIdempotent(s[k]);
      if k > 0 {
        var p := k - 1;
        assert t[p] == if p > 0 && IsCased(s[p - 1]) then LowerChar(s[p]) else UpperChar(s[p]);
        assert IsCased(t[p]) == IsCased(s[p]);
      }
    }
  }

  // ---------------------------------------------------------------- search

  /** `p` occurs in `s` starting at index `k`. */
  predicate OccursAt(s: string, p: string, k: int) {
    0 <= k && k + |p| <= |s| && s[k..k + |p|] == p
  }

  /** Python's `p in s`. */
  predicate Contains(s: string, p: string) {
    exists k | 0 <= k <= |s| :: OccursAt(s, p, k)
  }

  /** A substring found in a slice of `s` is found in `s`. */
  lemma ContainsSlice(s: string, i: int, j: int, p: string)
    requires 0 <= i <= j <= |s|
    requires Contains(s[i..j], p)
    ensures Contains(s, p)
  {
    var k :| 0 <= k <= j - i && OccursAt(s[i..j], p, k);
    assert 0 <= k && k + |p| <= j - i;
    var q := s[i..j][k..k + |p|];
    assert forall m | 0 <= m < |p| :: q[m] == s[i + k + m];
    assert s[i + k..i + k + |p|] == q;
    assert OccursAt(s, p, i + k) && i + k <= |s|;
  }

  /** Python's `s.split(c)[0]`: everything before the first `c`. */
  function Before(s: string, c: char): (r: string)
    ensures r <= s
    ensures c !in r
    ensures |r| < |s| ==> s[|r|] == c
  {
    if |s| == 0 || s[0] == c then ""
    else [s[0]] + Before(s[1..], c)
  }

  /** Splitting at the first `c` returns what precedes it. */
  lemma {:induction false} BeforeFirst(s: string, c: char, rest: string)
    requires c !in s
    ensures Before(s + [c] + rest, c) == s
  {
    if |s| > 0 {
      assert (s + [c] + rest)[1..] == s[1..] + [c] + rest;
      BeforeFirst(s[1..], c, rest);
    } else {
      assert (s + [c] + rest)[0] == c;
    }
  }

  /** Python's `s.replace(from, to)` for a one-character `from`. */
  function ReplaceChar(s: string, from: char, to: string): (r: string)
    ensures from !in to ==> from !in r
    ensures forall c :: c in r ==> c in to || (c in s && c != from)
    ensures |to| <= 1 ==> |r| <= |s|
  {
    if |s| == 0 then ""
    else (if s[0] == from then to else [s[0]]) + ReplaceChar(s[1..], from, to)
  }

  /** Replacing a character that does not occur changes nothing. */
  lemma {:induction false} ReplaceAbsent(s: string, from: char, to: string)
    requires from !in s
    ensures ReplaceChar(s, from, to) == s
  {
    if |s| > 0 {
      ReplaceAbsent(s[1..], from, to);
      assert s == [s[0]] + s[1..];
    }
  }

  /** Python's `sep.join(xs)`. */
  function Join(sep: string, xs: seq<string>): (r: string)
    ensures |xs| == 1 ==> r == xs[0]
    ensures |xs| > 0 ==> xs[0] <= r
  {
    if |xs| == 0 then ""
    else if |xs| == 1 then xs[0]
    else xs[0] + sep + Join(sep, xs[1..])
  }

  // ---------------------------------------------------------------- decimal

  function DigitChar(d: nat): char
    requires d < 10
  {
    ('0' as int + d) as char
  }

  function DigitValue(c: char): int {
    c as int - '0' as int
  }

  /** Decimal rendering of a natural number, as Python's `str(n)`. */
  function NatToStr(n: nat): (r: string)
    ensures |r| > 0
    ensures forall k | 0 <= k < |r| :: '0' <= r[k] <= '9'
    decreases n
  {
    if n < 10 then [DigitChar(n)] else NatToStr(n / 10) + [DigitChar(n % 10)]
  }

  /** Decimal rendering of an integer, as Python's `str(k)` / f-string `{k}`. */
  function IntToStr(k: int): string {
    if k < 0 then "-" + NatToStr(-k) else NatToStr(k)
  }

  /** Reads back a string of decimal digits. */
  function ParseNat(s: string): int {
    if |s| == 0 then 0 else ParseNat(s[..|s| - 1]) * 10 + DigitValue(s[|s| - 1])
  }

  function ParseInt(s: string): int {
    if |s| > 0 && s[0] == '-' then -ParseNat(s[1..]) else ParseNat(s)
  }

  lemma {:induction false} ParseNatToStr(n: nat)
    ensures ParseNat(NatToStr(n)) == n
    decreases n
  {
    if n >= 10 {
      ParseNatToStr(n / 10);
      var s := NatToStr(n / 10) + [DigitChar(n % 10)];
      assert s[..|s| - 1] == NatToStr(n / 10);
    }
  }

  /** Round trip: reading back `str(k)` gives `k`. */
  lemma ParseIntToStr(k: int)
    ensures ParseInt(IntToStr(k)) == k
  {
    if k < 0 {
      ParseNatToStr(-k);
      assert IntToStr(k)[1..] == NatToStr(-k);
    } else {
      ParseNatToStr(k);
    }
  }

  /** Distinct integers render as distinct strings. */
  lemma IntToStrInjective(a: int, b: int)
    ensures IntToStr(a) == IntToStr(b) ==> a == b
  {
    ParseIntToStr(a);
    ParseIntToStr(b);
  }
}
