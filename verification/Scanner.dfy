/**
 The literal- and paren-aware scanner of engine/internal/analyzer/parser.go.

 InLiteral, Depth and TopLevel say position by position what the scanner should see. The two
 methods are the loops of the source, which jump over doubled quotes; they are proved to agree
 with the position-by-position reading.
 */
module Scanner {
  import opened Text

  /** Position i lies behind an odd number of single quotes (see InLiteralMeansOddQuotes). */
  predicate InLiteral(s: string, i: nat)
    requires i <= |s|
  {
    i > 0 && InLiteral(s, i - 1) != (s[i - 1] == '\'')
  }

  /** Number of parentheses open before position i, literals ignored and never below zero. */
  function Depth(s: string, i: nat): nat
    requires i <= |s|
  {
    if i == 0 then 0
    else
      var d := Depth(s, i - 1);
      if InLiteral(s, i - 1) then d
      else if s[i - 1] == '(' then d + 1
      else if s[i - 1] == ')' && d > 0 then d - 1
      else d
  }

  predicate TopLevel(s: string, i: nat)
    requires i <= |s|
  {
    !InLiteral(s, i) && Depth(s, i) == 0
  }

  function QuotesBefore(s: string, i: nat): nat
    requires i <= |s|
  {
    if i == 0 then 0 else QuotesBefore(s, i - 1) + if s[i - 1] == '\'' then 1 else 0
  }

  lemma {:induction false} InLiteralMeansOddQuotes(s: string, i: nat)
    requires i <= |s|
    ensures InLiteral(s, i) <==> QuotesBefore(s, i) % 2 == 1
  {
    if i > 0 { InLiteralMeansOddQuotes(s, i - 1); }
  }

  predicate LettersAt(s: string, keyword: string, i: nat) {
    i + |keyword| <= |s| && forall j :: 0 <= j < |keyword| ==> UpperChar(s[i + j]) == UpperChar(keyword[j])
  }

  lemma UpperSliceIsLettersAt(s: string, keyword: string, i: nat)
    requires i + |keyword| <= |s|
    ensures ToUpper(s)[i..i + |keyword|] == ToUpper(keyword) <==> LettersAt(s, keyword, i)
  {
    var u := ToUpper(s)[i..i + |keyword|];
    assert forall j :: 0 <= j < |keyword| ==> u[j] == UpperChar(s[i + j]);
    if u == ToUpper(keyword) {
      forall j | 0 <= j < |keyword| ensures UpperChar(s[i + j]) == UpperChar(keyword[j]) {
        assert u[j] == ToUpper(keyword)[j];
      }
    }
  }

  /** The letter d characters into a keyword standing at i. */
  lemma LetterOf(s: string, keyword: string, i: nat, d: int)
    ensures LettersAt(s, keyword, i) && 0 <= d < |keyword| ==> UpperChar(s[i + d]) == UpperChar(keyword[d])
  {
  }

  /** The keyword stands at i: same letters ignoring case, no word byte on either side. */
  predicate WordAt(s: string, keyword: string, i: nat) {
    && LettersAt(s, keyword, i)
    && (i == 0 || !IsWordByte(s[i - 1]))
    && (i + |keyword| == |s| || !IsWordByte(s[i + |keyword|]))
  }

  predicate KeywordAt(s: string, keyword: string, i: nat) {
    && i < |s|
    && TopLevel(s, i)
    && s[i] != '\'' && s[i] != '(' && s[i] != ')'
    && WordAt(s, keyword, i)
  }

  function KeywordsBelow(s: string, keyword: string, n: nat): seq<nat>
    requires n <= |s|
  {
    if n == 0 then []
    else KeywordsBelow(s, keyword, n - 1) + if KeywordAt(s, keyword, n - 1) then [n - 1] else []
  }

  lemma {:induction false} KeywordsBelowAreAll(s: string, keyword: string, n: nat)
    requires n <= |s|
    ensures forall j, k :: 0 <= j < k < |KeywordsBelow(s, keyword, n)| ==>
      KeywordsBelow(s, keyword, n)[j] < KeywordsBelow(s, keyword, n)[k]
    ensures forall i: nat :: i in KeywordsBelow(s, keyword, n) <==> i < n && KeywordAt(s, keyword, i)
  {
    if n > 0 {
      KeywordsBelowAreAll(s, keyword, n - 1);
      var below := KeywordsBelow(s, keyword, n - 1);
      assert forall k :: 0 <= k < |below| ==> below[k] in below;
    }
  }

  /** The positions of a top-level keyword, in increasing order and without omission. */
  function KeywordIndices(s: string, keyword: string): (r: seq<nat>)
    ensures forall j, k :: 0 <= j < k < |r| ==> r[j] < r[k]
    ensures forall i: nat :: i in r <==> KeywordAt(s, keyword, i)
  {
    KeywordsBelowAreAll(s, keyword, |s|);
    KeywordsBelow(s, keyword, |s|)
  }

  /** A top-level semicolon at i with more than blanks behind it. */
  predicate ExtraStatementAt(s: string, i: nat) {
    i < |s| && TopLevel(s, i) && s[i] == ';' && TrimSpace(s[i + 1..]) != ""
  }

  /** Neither quote of a doubled quote inside a literal changes what the scanner reports. */
  lemma SkipDoubledQuote(s: string, keyword: string, i: nat)
    requires i + 1 < |s| && InLiteral(s, i) && s[i] == '\'' && s[i + 1] == '\''
    ensures InLiteral(s, i + 2) && Depth(s, i + 2) == Depth(s, i)
    ensures KeywordsBelow(s, keyword, i + 2) == KeywordsBelow(s, keyword, i)
    ensures !ExtraStatementAt(s, i) && !ExtraStatementAt(s, i + 1)
  {
    assert !InLiteral(s, i + 1) && Depth(s, i + 1) == Depth(s, i);
    assert KeywordsBelow(s, keyword, i + 1) == KeywordsBelow(s, keyword, i);
  }

  /** The comparison the loop makes at a position outside literals that holds no parenthesis. */
  lemma KeywordTest(s: string, keyword: string, i: nat)
    requires i < |s|
    ensures KeywordAt(s, keyword, i) <==>
      && !InLiteral(s, i) && Depth(s, i) == 0
      && s[i] != '\'' && s[i] != '(' && s[i] != ')'
      && i + |keyword| <= |s| && ToUpper(s)[i..i + |keyword|] == ToUpper(keyword)
      && (i == 0 || !IsWordByte(s[i - 1]))
      && (i + |keyword| == |s| || !IsWordByte(s[i + |keyword|]))
  {
    if i + |keyword| <= |s| { UpperSliceIsLettersAt(s, keyword, i); }
  }

  /** topLevelKeywordIndices. */
  method TopLevelKeywordIndices(s: string, keyword: string) returns (idxs: seq<nat>)
    ensures idxs == KeywordIndices(s, keyword)
  {
    var up := ToUpper(s);
    var kw := ToUpper(keyword);
    var n := |s|;
    idxs := [];
    var inStr := false;
    var depth := 0;
    var i := 0;
    while i < n
      invariant 0 <= i <= n
      invariant inStr == InLiteral(s, i) && depth == Depth(s, i)
      invariant idxs == KeywordsBelow(s, keyword, i)
    {
      var c := s[i];
      KeywordTest(s, keyword, i);
      if inStr {
        if c == '\'' {
          if i + 1 < n && s[i + 1] == '\'' {
            SkipDoubledQuote(s, keyword, i);
            i := i + 1;  // a doubled quote stays inside the literal
          } else {
            inStr := false;
          }
        }
      } else {
        if c == '\'' {
          inStr := true;
        } else if c == '(' {
          depth := depth + 1;
        } else if c == ')' {
          if depth > 0 { depth := depth - 1; }
        } else if depth == 0 && i + |kw| <= n && up[i..i + |kw|] == kw {
          var beforeOK := i == 0 || !IsWordByte(s[i - 1]);
          var afterOK := i + |kw| == n || !IsWordByte(s[i + |kw|]);
          if beforeOK && afterOK { idxs := idxs + [i]; }
        }
      }
      i := i + 1;
    }
  }

  predicate HasSecondStatement(s: string) {
    exists i: nat | i < |s| :: ExtraStatementAt(s, i)
  }

  /** hasExtraStatement. */
  method HasExtraStatement(s: string) returns (r: bool)
    ensures r <==> HasSecondStatement(s)
  {
    var n := |s|;
    var inStr := false;
    var depth := 0;
    var i := 0;
    while i < n
      invariant 0 <= i <= n
      invariant inStr == InLiteral(s, i) && depth == Depth(s, i)
      invariant forall j: nat :: j < i ==> !ExtraStatementAt(s, j)
    {
      var c := s[i];
      if inStr {
        if c == '\'' {
          if i + 1 < n && s[i + 1] == '\'' {
            SkipDoubledQuote(s, "", i);
            i := i + 1;
          } else {
            inStr := false;
          }
        }
      } else {
        if c == '\'' {
          inStr := true;
        } else if c == '(' {
          depth := depth + 1;
        } else if c == ')' {
          if depth > 0 { depth := depth - 1; }
        } else if c == ';' {
          if depth == 0 && TrimSpace(s[i + 1..]) != "" {
            assert ExtraStatementAt(s, i);
            return true;
          }
        }
      }
      i := i + 1;
    }
    return false;
  }

  /** Scanning a slice from a fresh state sees what the whole scan sees, if it starts at top level. */
  lemma {:induction false} SliceScan(s: string, a: nat, b: nat, i: nat)
    requires a <= b <= |s| && i <= b - a
    requires TopLevel(s, a)
    ensures InLiteral(s[a..b], i) == InLiteral(s, a + i)
    ensures Depth(s[a..b], i) == Depth(s, a + i)
  {
    if i > 0 { SliceScan(s, a, b, i - 1); }
  }

  /** Blanks keep the scanner at top level. */
  lemma BlankRun(s: string, a: nat, b: nat)
    requires a <= b <= |s| && TopLevel(s, a) && Blank(s[a..b])
    ensures TopLevel(s, b)
    ensures a < b ==> !IsWordByte(s[a]) && !IsWordByte(s[b - 1])
  {
    forall j | a <= j < b ensures s[j] != '\'' && s[j] != '(' && s[j] != ')' && !IsWordByte(s[j]) {
      assert IsSpace(s[a..b][j - a]);
    }
    PlainRun(s, a, b);
  }

  /** Without quotes and parentheses the scanner stays at top level. */
  lemma {:induction false} PlainRun(s: string, a: nat, b: nat)
    requires a <= b <= |s| && TopLevel(s, a)
    requires forall j :: a <= j < b ==> s[j] != '\'' && s[j] != '(' && s[j] != ')'
    ensures TopLevel(s, b)
    decreases b - a
  {
    if a < b { PlainRun(s, a, b - 1); }
  }

  /** The scanner stays inside a literal up to the next quote. */
  lemma {:induction false} LiteralRun(s: string, a: nat, b: nat)
    requires a <= b <= |s| && InLiteral(s, a)
    requires forall j :: a <= j < b ==> s[j] != '\''
    ensures InLiteral(s, b) && Depth(s, b) == Depth(s, a)
    decreases b - a
  {
    if a < b { LiteralRun(s, a, b - 1); }
  }

  /** No word runs across position i. */
  predicate WordBorder(s: string, i: nat)
    requires i <= |s|
  {
    i == 0 || i == |s| || !IsWordByte(s[i - 1]) || !IsWordByte(s[i])
  }

  /** A keyword whose first and last characters are word bytes. */
  predicate IsKeyword(keyword: string) {
    keyword != "" && IsWordByte(keyword[0]) && IsWordByte(keyword[|keyword| - 1])
  }

  /**
   A slice cut at top level contains a keyword exactly where the whole text does, provided the
   cut splits no word.
   */
  lemma SliceKeyword(s: string, a: nat, b: nat, keyword: string, i: nat)
    requires a <= b <= |s| && i < b - a
    requires TopLevel(s, a)
    requires WordBorder(s, a) && WordBorder(s, b)
    requires IsKeyword(keyword)
    ensures KeywordAt(s[a..b], keyword, i) <==> a + i + |keyword| <= b && KeywordAt(s, keyword, a + i)
  {
    SliceScan(s, a, b, i);
    SliceLetters(s, a, b, keyword, i);
    var u, m := s[a..b], |keyword|;
    LetterOf(u, keyword, i, 0);
    LetterOf(u, keyword, i, m - 1);
    assert i > 0 ==> u[i - 1] == s[a + i - 1];
    assert i + m < b - a ==> u[i + m] == s[a + i + m];
  }

  lemma SliceLetters(s: string, a: nat, b: nat, keyword: string, i: nat)
    requires a <= b <= |s|
    ensures LettersAt(s[a..b], keyword, i) <==> a + i + |keyword| <= b && LettersAt(s, keyword, a + i)
  {
    var u, m := s[a..b], |keyword|;
    if LettersAt(u, keyword, i) {
      forall j | 0 <= j < m ensures UpperChar(s[a + i + j]) == UpperChar(keyword[j]) {
        assert s[a + i + j] == u[i + j];
      }
    }
    if a + i + m <= b && LettersAt(s, keyword, a + i) {
      forall j | 0 <= j < m ensures UpperChar(u[i + j]) == UpperChar(keyword[j]) {
        assert s[a + i + j] == u[i + j];
      }
    }
  }
}
