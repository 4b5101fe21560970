/** What splitWhere and stripTrailingClauses promise about any statement body. */
module WhereClause {
  import opened Text
  import opened Scanner
  import opened Parser

  /** Trimming a top-level slice gives again a top-level slice that splits no word. */
  lemma TrimIsSlice(s: string, a: nat, b: nat) returns (x: nat, y: nat)
    requires a <= b <= |s| && TopLevel(s, a)
    requires WordBorder(s, a) && WordBorder(s, b)
    ensures a <= x <= y <= b && TrimSpace(s[a..b]) == s[x..y]
    ensures TopLevel(s, x) && WordBorder(s, x) && WordBorder(s, y)
  {
    x, y := TrimSlice(s, a, b);
    BlankRun(s, a, x);
  }

  /** Where trimming cuts a slice, as positions of the whole text. */
  lemma TrimSlice(s: string, a: nat, b: nat) returns (x: nat, y: nat)
    requires a <= b <= |s|
    ensures a <= x <= y <= b && TrimSpace(s[a..b]) == s[x..y] && Blank(s[a..x])
    ensures (a < x ==> IsSpace(s[x - 1])) && (y < b ==> IsSpace(s[y]))
  {
    var lo, hi := TrimBounds(s[a..b]);
    x, y := a + lo, a + hi;
    SliceOfSlice(s, a, b, lo, hi);
    BlankSlice(s, a, b, lo);
  }

  lemma BlankSlice(s: string, a: nat, b: nat, n: nat)
    requires a <= b <= |s| && n <= b - a
    ensures Blank(s[a..b][..n]) ==> Blank(s[a..a + n])
  {
    SliceOfSlice(s, a, b, 0, n);
    assert s[a..b][0..n] == s[a..b][..n];
  }

  /** A keyword seen in the trimmed middle of a text was a keyword of the whole text. */
  lemma TrimmedKeyword(s: string, a: nat, b: nat, keyword: string, i: nat) returns (k: nat)
    requires a <= b <= |s| && TopLevel(s, a)
    requires WordBorder(s, a) && WordBorder(s, b)
    requires IsKeyword(keyword)
    requires KeywordAt(TrimSpace(s[a..b]), keyword, i)
    ensures a <= k && k + |keyword| <= b && KeywordAt(s, keyword, k)
  {
    var x, y := TrimIsSlice(s, a, b);
    SliceKeyword(s, x, y, keyword, i);
    k := x + i;
  }

  /** The cut in front of a tail never splits a word. */
  lemma TailCutBorder(w: string)
    ensures WordBorder(w, TailCut(w))
    ensures var c := TailCut(w); c < |w| ==> KeywordAt(w, "ORDER BY", c) || KeywordAt(w, "LIMIT", c)
    ensures forall i: nat :: KeywordAt(w, "ORDER BY", i) || KeywordAt(w, "LIMIT", i) ==> TailCut(w) <= i
  {
  }

  ghost predicate NoKeyword(s: string, keyword: string) {
    forall i: nat :: !KeywordAt(s, keyword, i)
  }

  ghost predicate NoTail(s: string) {
    NoKeyword(s, "ORDER BY") && NoKeyword(s, "LIMIT")
  }

  lemma WithoutTailKeywords(w: string, keyword: string)
    requires IsKeyword(keyword)
    ensures NoKeyword(w, keyword) ==> NoKeyword(WithoutTail(w), keyword)
    ensures keyword in ["ORDER BY", "LIMIT"] ==> NoKeyword(WithoutTail(w), keyword)
  {
    TailCutBorder(w);
    assert w[0..TailCut(w)] == w[..TailCut(w)];
    forall i: nat | KeywordAt(WithoutTail(w), keyword, i)
      ensures !NoKeyword(w, keyword) && keyword !in ["ORDER BY", "LIMIT"]
    {
      var k := TrimmedKeyword(w, 0, TailCut(w), keyword, i);
    }
  }

  lemma WithoutTailFixed(w: string)
    requires NoTail(w)
    ensures WithoutTail(w) == TrimSpace(w)
  {
    assert w[..|w|] == w;
  }

  /** stripTrailingClauses leaves no tail behind, so running it again changes nothing. */
  lemma StripIsIdempotent(w: string)
    ensures NoTail(WithoutTail(w))
    ensures WithoutTail(WithoutTail(w)) == WithoutTail(w)
  {
    WithoutTailKeywords(w, "ORDER BY");
    WithoutTailKeywords(w, "LIMIT");
    WithoutTailFixed(WithoutTail(w));
  }

  /** splitWhere finds a WHERE exactly if the body has a top-level one. */
  lemma SplitFindsWhere(body: string)
    ensures SplitWhere(body).hasWhere <==> exists i: nat :: KeywordAt(body, "WHERE", i)
  {
  }

  /** The state right behind a top-level WHERE is again a fresh one. */
  lemma AfterWhere(body: string, p: nat)
    requires KeywordAt(body, "WHERE", p)
    ensures TopLevel(body, p + 5)
    ensures WordBorder(body, p + 5)
  {
    assert forall j :: 0 <= j < 5 ==> UpperChar(body[p + j]) == UpperChar("WHERE"[j]);
    forall j | p <= j < p + 5 ensures body[j] != '\'' && body[j] != '(' && body[j] != ')' {
      assert UpperChar(body[p + (j - p)]) == UpperChar("WHERE"[j - p]);
    }
    PlainRun(body, p, p + 5);
  }

  lemma LastWhere(body: string) returns (p: nat)
    requires SplitWhere(body).hasWhere
    ensures KeywordAt(body, "WHERE", p)
    ensures forall i: nat :: KeywordAt(body, "WHERE", i) ==> i <= p
    ensures SplitWhere(body) == SplitAt(body, p)
  {
    p := LastKeyword(body, "WHERE");
  }

  /** The predicate splitWhere returns is a bare row filter: trimmed, no top-level WHERE, ORDER BY or LIMIT. */
  lemma PredicateIsBare(body: string)
    requires SplitWhere(body).hasWhere
    ensures var w := SplitWhere(body).where;
      Trimmed(w) && NoKeyword(w, "WHERE") && NoTail(w)
  {
    var p := LastWhere(body);
    var t := TrimSpace(body[p + 5..]);
    NoWhereBehind(body, p, t);
    WithoutTailKeywords(t, "WHERE");
    StripIsIdempotent(t);
  }

  lemma NoWhereBehind(body: string, p: nat, t: string)
    requires KeywordAt(body, "WHERE", p) && t == TrimSpace(body[p + 5..])
    requires forall i: nat :: KeywordAt(body, "WHERE", i) ==> i <= p
    ensures NoKeyword(t, "WHERE")
  {
    AfterWhere(body, p);
    assert body[p + 5..|body|] == body[p + 5..];
    forall i: nat ensures !KeywordAt(t, "WHERE", i) {
      if KeywordAt(t, "WHERE", i) {
        var k := TrimmedKeyword(body, p + 5, |body|, "WHERE", i);
        assert false;
      }
    }
  }

  /**
   Nothing is lost but blanks and the tail: the body is the part before, the WHERE word, and a
   remainder that trims to the predicate, blanks, and either nothing or an ORDER BY / LIMIT tail.
   */
  lemma SplitReassembles(body: string) returns (word: string, rest: string, gap: string, tail: string)
    requires SplitWhere(body).hasWhere
    ensures body == SplitWhere(body).before + word + rest && ToUpper(word) == "WHERE"
    ensures TrimSpace(rest) == SplitWhere(body).where + gap + tail && Blank(gap)
    ensures tail == "" || KeywordAt(TrimSpace(rest), "ORDER BY", |SplitWhere(body).where + gap|)
                       || KeywordAt(TrimSpace(rest), "LIMIT", |SplitWhere(body).where + gap|)
  {
    var p := LastWhere(body);
    word, rest := body[p..p + 5], body[p + 5..];
    CutTwice(body, p, p + 5);
    WhereWord(body, p);
    gap, tail := TailSplit(TrimSpace(rest));
    assert SplitWhere(body).before == body[..p] && SplitWhere(body).where == WithoutTail(TrimSpace(rest));
  }

  lemma WhereWord(body: string, p: nat)
    requires KeywordAt(body, "WHERE", p)
    ensures ToUpper(body[p..p + 5]) == "WHERE"
  {
    assert forall j :: 0 <= j < 5 ==> UpperChar(body[p + j]) == UpperChar("WHERE"[j]);
  }

  lemma TailSplit(t: string) returns (gap: string, tail: string)
    requires Trimmed(t)
    ensures t == WithoutTail(t) + gap + tail && Blank(gap)
    ensures tail == "" || KeywordAt(t, "ORDER BY", |WithoutTail(t) + gap|) || KeywordAt(t, "LIMIT", |WithoutTail(t) + gap|)
  {
    TailCutBorder(t);
    var cut := TailCut(t);
    var u := t[..cut];
    var lo, hi := TrimBounds(u);
    gap, tail := t[hi..cut], t[cut..];
    assert u[hi..] == gap && u[..hi] == t[..hi];
    CutTwice(t, hi, cut);
  }
}
