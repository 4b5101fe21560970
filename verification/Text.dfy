/** ASCII text helpers shared by every module: the parts of Go's `strings` package the engine uses. */
module Text {

  datatype Option<+T> = None | Some(value: T)

  /** unicode.IsSpace on ASCII: tab, newline, vertical tab, form feed, carriage return, blank. */
  predicate IsSpace(c: char) {
    c == ' ' || '\t' <= c <= '\r'
  }

  predicate IsWordByte(c: char) {
    c == '_' || 'a' <= c <= 'z' || 'A' <= c <= 'Z' || '0' <= c <= '9'
  }

  function UpperChar(c: char): char {
    if 'a' <= c <= 'z' then (c as int - 32) as char else c
  }

  function LowerChar(c: char): char {
    if 'A' <= c <= 'Z' then (c as int + 32) as char else c
  }

  function ToUpper(s: string): (r: string)
    ensures |r| == |s|
    ensures forall i :: 0 <= i < |s| ==> r[i] == UpperChar(s[i])
  {
    seq(|s|, i requires 0 <= i < |s| => UpperChar(s[i]))
  }

  function ToLower(s: string): (r: string)
    ensures |r| == |s|
    ensures forall i :: 0 <= i < |s| ==> r[i] == LowerChar(s[i])
  {
    seq(|s|, i requires 0 <= i < |s| => LowerChar(s[i]))
  }

  /** strings.EqualFold restricted to ASCII. */
  predicate EqualFold(a: string, b: string) {
    ToLower(a) == ToLower(b)
  }

  const LOWER := "abcdefghijklmnopqrstuvwxyz"
  const UPPER := "ABCDEFGHIJKLMNOPQRSTUVWXYZ"
  const DIGITS := "0123456789"

  lemma Letters(c: char)
    ensures c in LOWER <==> 'a' <= c <= 'z'
    ensures c in UPPER <==> 'A' <= c <= 'Z'
  {
    assert forall k :: 0 <= k < 26 ==> LOWER[k] as int == 'a' as int + k && UPPER[k] as int == 'A' as int + k;
    if 'a' <= c <= 'z' { assert c == LOWER[c as int - 'a' as int]; }
    if 'A' <= c <= 'Z' { assert c == UPPER[c as int - 'A' as int]; }
  }

  lemma Numerals(c: char)
    ensures c in DIGITS <==> '0' <= c <= '9'
  {
    assert forall k :: 0 <= k < 10 ==> DIGITS[k] as int == '0' as int + k;
    if '0' <= c <= '9' { assert c == DIGITS[c as int - '0' as int]; }
  }

  /** The letters, digits and the underscore make up words; six characters are blanks. */
  lemma CharClasses(c: char)
    ensures IsWordByte(c) <==> c in LOWER || c in UPPER || c in DIGITS || c == '_'
    ensures IsSpace(c) <==> c in [' ', '\t', '\n', '\U{0B}', '\U{0C}', '\r']
  {
    Letters(c);
    Numerals(c);
  }

  /** Changing the case of a letter gives the letter at the same place of the other alphabet, and leaves anything else alone. */
  lemma LetterCase(k: nat, c: char)
    requires k < 26
    ensures UpperChar(LOWER[k]) == UPPER[k] && LowerChar(UPPER[k]) == LOWER[k]
    ensures (c !in LOWER ==> UpperChar(c) == c) && (c !in UPPER ==> LowerChar(c) == c)
  {
    assert LOWER[k] as int == 'a' as int + k && UPPER[k] as int == 'A' as int + k;
    Letters(c);
  }

  /** The same character, or the same letter in another case. */
  ghost predicate SameLetter(c: char, d: char) {
    c == d || exists k | 0 <= k < 26 :: (c == LOWER[k] && d == UPPER[k]) || (c == UPPER[k] && d == LOWER[k])
  }

  /** Two texts are equal up to case exactly if they are so letter by letter. */
  lemma EqualFoldIff(a: string, b: string)
    ensures EqualFold(a, b) <==> |a| == |b| && forall i :: 0 <= i < |a| ==> SameLetter(a[i], b[i])
  {
    forall c, d ensures LowerChar(c) == LowerChar(d) <==> SameLetter(c, d) { LowerIsSameLetter(c, d); }
    var u, v := ToLower(a), ToLower(b);
    if u == v {
      forall i | 0 <= i < |a| ensures SameLetter(a[i], b[i]) { assert u[i] == v[i]; }
    }
  }

  lemma LowerIsSameLetter(c: char, d: char)
    ensures LowerChar(c) == LowerChar(d) <==> SameLetter(c, d)
  {
    if c != d && SameLetter(c, d) {
      var k :| 0 <= k < 26 && ((c == LOWER[k] && d == UPPER[k]) || (c == UPPER[k] && d == LOWER[k]));
      LetterPair(k);
    }
    if c != d && LowerChar(c) == LowerChar(d) {
      var k := LowerChar(c) as int - 'a' as int;
      LetterPair(k);
      assert (c == LOWER[k] && d == UPPER[k]) || (c == UPPER[k] && d == LOWER[k]);
    }
  }

  lemma LetterPair(k: nat)
    requires k < 26
    ensures LOWER[k] as int == 'a' as int + k && UPPER[k] as int == 'A' as int + k
    ensures LowerChar(LOWER[k]) == LowerChar(UPPER[k]) == LOWER[k]
  {
  }

  /** The first position at or after k that does not hold a blank. */
  function SkipSpaces(s: string, k: nat): (r: nat)
    requires k <= |s|
    ensures k <= r <= |s|
    ensures forall j :: k <= j < r ==> IsSpace(s[j])
    ensures r < |s| ==> !IsSpace(s[r])
    decreases |s| - k
  {
    if k < |s| && IsSpace(s[k]) then SkipSpaces(s, k + 1) else k
  }

  /** The end of the text before k once trailing blanks are dropped, never below lo. */
  function SkipSpacesBack(s: string, lo: nat, k: nat): (r: nat)
    requires lo <= k <= |s|
    ensures lo <= r <= k
    ensures forall j :: r <= j < k ==> IsSpace(s[j])
    ensures lo < r ==> !IsSpace(s[r - 1])
    decreases k
  {
    if lo < k && IsSpace(s[k - 1]) then SkipSpacesBack(s, lo, k - 1) else k
  }

  function TrimSpace(s: string): (r: string)
    ensures Trimmed(r)
  {
    var lo := SkipSpaces(s, 0);
    var hi := SkipSpacesBack(s, lo, |s|);
    s[lo..hi]
  }

  ghost predicate Blank(s: string) {
    forall j :: 0 <= j < |s| ==> IsSpace(s[j])
  }

  /** Where TrimSpace cuts. */
  lemma TrimBounds(s: string) returns (lo: nat, hi: nat)
    ensures lo <= hi <= |s| && TrimSpace(s) == s[lo..hi]
    ensures Blank(s[..lo]) && Blank(s[hi..])
    ensures hi == lo || (!IsSpace(s[lo]) && !IsSpace(s[hi - 1]))
    ensures (lo > 0 ==> IsSpace(s[0]) && IsSpace(s[lo - 1])) && (hi < |s| ==> IsSpace(s[hi]))
  {
    lo := SkipSpaces(s, 0);
    hi := SkipSpacesBack(s, lo, |s|);
    assert lo < hi ==> !IsSpace(s[hi - 1]);
    assert lo < hi ==> !IsSpace(s[lo]);
  }

  lemma TrimEmpty(s: string)
    ensures TrimSpace(s) == "" <==> Blank(s)
  {
    var lo, hi := TrimBounds(s);
    if lo == hi {
      forall j | 0 <= j < |s| ensures IsSpace(s[j]) {
        if j < lo { assert IsSpace(s[..lo][j]); } else { assert IsSpace(s[hi..][j - hi]); }
      }
    }
  }

  predicate Trimmed(s: string) {
    s == "" || (!IsSpace(s[0]) && !IsSpace(s[|s| - 1]))
  }

  lemma TrimmedIsFixed(s: string)
    requires Trimmed(s)
    ensures TrimSpace(s) == s
  {
  }

  /** Blanks around a trimmed core disappear. */
  lemma TrimAround(before: string, core: string, after: string)
    requires forall j :: 0 <= j < |before| ==> IsSpace(before[j])
    requires forall j :: 0 <= j < |after| ==> IsSpace(after[j])
    requires Trimmed(core)
    ensures TrimSpace(before + core + after) == core
  {
    var s := before + core + after;
    var lo := SkipSpaces(s, 0);
    if core == "" {
      assert forall j :: 0 <= j < |s| ==> IsSpace(s[j]);
    } else {
      assert s[|before|] == core[0];
      assert forall j :: 0 <= j < |before| ==> IsSpace(s[j]);
      assert lo == |before|;
      var hi := SkipSpacesBack(s, lo, |s|);
      var last := |before| + |core| - 1;
      assert s[last] == core[|core| - 1];
      assert forall j :: last < j < |s| ==> s[j] == after[j - last - 1];
      assert hi == last + 1;
    }
  }

  predicate OccursAt(needle: string, text: string, i: nat) {
    i + |needle| <= |text| && text[i..i + |needle|] == needle
  }

  /** strings.Contains. */
  predicate Occurs(needle: string, text: string) {
    exists i: nat | i <= |text| :: OccursAt(needle, text, i)
  }

  lemma Assoc<T>(a: seq<T>, b: seq<T>, c: seq<T>)
    ensures (a + b) + c == a + (b + c)
  {
  }

  lemma CutTwice(s: string, a: nat, b: nat)
    requires a <= b <= |s|
    ensures s[..a] + s[a..b] + s[b..] == s
  {
  }

  /** Three pieces put together can be cut apart again. */
  lemma CutPoints(a: string, m: string, b: string)
    ensures var s := a + m + b;
      s[0..|a|] == a && s[..|a|] == a && s[|a|..|a| + |m|] == m && s[|a| + |m|..|s|] == b && s[|a| + |m|..] == b
  {
  }

  lemma TailOfJoin(a: string, m: string, b: string)
    requires a != ""
    ensures (a + m + b)[0] == a[0] && (a + m + b)[1..] == a[1..] + m + b
  {
  }

  lemma SliceOfSlice(s: string, a: nat, b: nat, lo: nat, hi: nat)
    requires a <= b <= |s| && lo <= hi <= b - a
    ensures s[a..b][lo..hi] == s[a + lo..a + hi]
  {
    assert forall j :: 0 <= j < hi - lo ==> s[a..b][lo..hi][j] == s[a + lo + j];
  }

  function Join(parts: seq<string>, sep: string): string {
    if parts == [] then ""
    else if |parts| == 1 then parts[0]
    else parts[0] + sep + Join(parts[1..], sep)
  }
}
