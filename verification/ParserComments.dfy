/**
 Comments and ParseDML. stripComments looks for comments without regard to literals, so a comment mark
 inside a literal makes ParseDML read another statement than the one written. Which statements survive,
 what is read instead, and when a second statement is seen.
 */
module ParserComments {
  import opened Text
  import opened Scanner
  import opened Parser
  import opened WhereClause
  import opened CommentStripper
  import opened ParserRoundTrip

  // ------------------------------------------------------ what always survives

  lemma HeadCharStays(s: string)
    requires s != "" && s[0] != '-' && s[0] != '/'
    ensures StripComments(s) != "" && StripComments(s)[0] == s[0]
  {
    assert [s[0]] + s[1..] == s;
    StripBehind([s[0]], s[1..]);
  }

  lemma WordHasNoMark(t: string)
    requires IsWord(t)
    ensures '-' !in t && '/' !in t && '\n' !in t
  {
    assert forall c :: c in t ==> IsWordByte(c);
  }

  /** The head of an UPDATE or DELETE opens no comment. */
  lemma UpdateHeadStays(table: string, rest: string)
    requires IsWord(table)
    ensures StripComments("UPDATE " + table + " SET " + rest) == "UPDATE " + table + " SET " + StripComments(rest)
  {
    WordHasNoMark(table);
    StripBehind("UPDATE " + table + " SET ", rest);
  }

  lemma DeleteHeadStays(table: string, rest: string)
    requires IsWord(table)
    ensures StripComments("DELETE FROM " + table + rest) == "DELETE FROM " + table + StripComments(rest)
  {
    WordHasNoMark(table);
    StripBehind("DELETE FROM " + table, rest);
  }

  lemma FilterHeadStays(f: Filter)
    ensures StripComments(PrintFilter(f)) == "WHERE" + (" " + StripComments(PrintWithTail(f)))
  {
    Assoc("WHERE", " ", PrintWithTail(f));
    Assoc("WHERE", " ", StripComments(PrintWithTail(f)));
    StripBehind("WHERE" + " ", PrintWithTail(f));
  }

  /** What follows the head of a printed statement. */
  function BodyOf(d: Dml): string
    requires d.Update? ==> d.sets != []
  {
    match d
    case Update(_, sets, None) => PrintSets(sets)
    case Update(_, sets, Some(f)) => (PrintSets(sets) + " ") + PrintFilter(f)
    case Delete(_, f) => " " + PrintFilter(f)
    case DeleteAll(_, tail) => if tail == "" then "" else " " + tail
  }

  /** A printed statement that is not refused keeps its verb and its table, whatever its comment marks do. */
  lemma HeadSurvives(d: Dml)
    requires WellFormed(d) && Acceptable(Print(d))
    ensures var p := ParseDML(Print(d));
      p.parseable && p.verb == Expected(d).verb && p.table == d.table
  {
    var body := BodyOf(d);
    if d.Update? {
      SetsStartPlain(d.sets);
      HeadCharStays(body);
      UpdateHeadStays(d.table, body);
      UpdateRead(Print(d), d.table, StripComments(body));
    } else {
      DeleteHeadStays(d.table, body);
      DeleteBodyStays(d);
      DeleteRead(Print(d), d.table, StripComments(body));
    }
  }

  lemma DeleteBodyStays(d: Dml)
    requires !d.Update? && WellFormed(d)
    ensures var body := StripComments(BodyOf(d)); body == "" || (body[0] == ' ' && |body| > 1 && !IsSpace(body[1]))
  {
    match d
    case Delete(_, f) =>
      StripBehind(" ", PrintFilter(f));
      FilterHeadStays(f);
    case DeleteAll(_, tail) =>
      if tail != "" {
        TailStartsPlain(tail);
        assert tail[0] != '-' && tail[0] != '/' by {
          LetterOf(tail, "ORDER BY", 0, 0);
          LetterOf(tail, "LIMIT", 0, 0);
        }
        HeadCharStays(tail);
        StripBehind(" ", tail);
      }
  }

  // ------------------------------------------------------------ the predicate

  /** Cutting a text never brings a comment about. */
  lemma CutIsUncommented(s: string, k: nat)
    requires Uncommented(s) && k <= |s|
    ensures Uncommented(s[..k]) && Uncommented(s[k..])
  {
    UncommentedSlice(s, 0, k);
    UncommentedSlice(s, k, |s|);
    assert s[0..k] == s[..k] && s[k..|s|] == s[k..];
  }

  lemma TrimmedIsUncommented(s: string)
    requires Uncommented(s)
    ensures Uncommented(TrimSpace(s))
  {
    var lo, hi := TrimBounds(s);
    UncommentedSlice(s, lo, hi);
  }

  lemma TailLessIsUncommented(w: string)
    requires Uncommented(w)
    ensures Uncommented(WithoutTail(w))
  {
    CutIsUncommented(w, TailCut(w));
    TrimmedIsUncommented(w[..TailCut(w)]);
  }

  lemma SplitAtIsUncommented(body: string, at: nat)
    requires Uncommented(body) && at + 5 <= |body|
    ensures Uncommented(SplitAt(body, at).where)
  {
    CutIsUncommented(body, at + 5);
    TrimmedIsUncommented(body[at + 5..]);
    TailLessIsUncommented(TrimSpace(body[at + 5..]));
  }

  lemma SplitIsUncommented(body: string)
    requires Uncommented(body)
    ensures Uncommented(SplitWhere(body).where)
  {
    var at := LastKeyword(body, "WHERE");
    if at >= 0 { SplitAtIsUncommented(body, at); }
  }

  lemma UpdateBodyIsSuffix(q: string) returns (k: nat)
    requires MatchUpdateHead(q).Head?
    ensures k <= |q| && MatchUpdateHead(q).body == q[k..]
  {
    var body := MatchUpdateHead(q).body;
    var set_ := Run(IsPatternSpace, q, Run(IsTableByte, q, Run(IsPatternSpace, q, Run(IsPatternSpace, q, 0) + 6)));
    var from := Run(IsPatternSpace, q, set_ + 3);
    k := if from < |q| then from else from - 1;
  }

  lemma TableBodyIsSuffix(q: string, i: nat) returns (k: nat)
    requires i <= |q| && TableHead(q, i).Head?
    ensures k <= |q| && TableHead(q, i).body == q[k..]
  {
    k := Run(IsPatternSpace, q, Run(IsTableByte, q, Run(IsPatternSpace, q, i)));
  }

  lemma DeleteBodyIsSuffix(q: string) returns (k: nat)
    requires MatchDeleteHead(q).Head?
    ensures k <= |q| && MatchDeleteHead(q).body == q[k..]
  {
    var verb := Run(IsPatternSpace, q, 0);
    assert MatchDeleteHead(q) == FromHead(q, verb + 6);
    k := FromBodyIsSuffix(q, verb + 6);
  }

  lemma FromBodyIsSuffix(q: string, i: nat) returns (k: nat)
    requires i <= |q| && FromHead(q, i).Head?
    ensures k <= |q| && FromHead(q, i).body == q[k..]
  {
    k := TableBodyIsSuffix(q, Run(IsPatternSpace, q, i) + 4);
  }

  /** The predicate ParseDML answers comes out of the body of one of the two heads. */
  lemma PredicateSource(text: string)
    ensures var (q, p) := (StripComments(text), ParseDML(text));
      || p.whereClause == ""
      || (MatchUpdateHead(q).Head? && p.whereClause == SplitWhere(MatchUpdateHead(q).body).where)
      || (MatchDeleteHead(q).Head? && p.whereClause == SplitWhere(MatchDeleteHead(q).body).where)
  {
  }

  /** Whatever the text is, the predicate ParseDML reads holds no comment. */
  lemma PredicateIsUncommented(text: string)
    ensures Uncommented(ParseDML(text).whereClause)
  {
    var q := StripComments(text);
    StrippedIsUncommented(text);
    PredicateSource(text);
    if MatchUpdateHead(q).Head? {
      var k := UpdateBodyIsSuffix(q);
      CutIsUncommented(q, k);
      SplitIsUncommented(q[k..]);
    }
    if MatchDeleteHead(q).Head? {
      var k := DeleteBodyIsSuffix(q);
      CutIsUncommented(q, k);
      SplitIsUncommented(q[k..]);
    }
  }

  lemma FilterIsUncommentedIff(f: Filter)
    ensures Uncommented(PrintFilter(f)) <==> Uncommented(PrintWithTail(f))
    ensures Uncommented(" " + PrintFilter(f)) <==> Uncommented(PrintWithTail(f))
  {
    assert PrintFilter(f) == "WHERE " + PrintWithTail(f);
    UncommentedBehind("WHERE ", PrintWithTail(f));
    UncommentedBehind(" ", PrintFilter(f));
  }

  /**
   When a DELETE with a predicate and no tail is read back: exactly if its predicate holds no comment mark,
   which is exactly when stripComments leaves the text alone.
   */
  lemma DeleteReadIff(d: Dml)
    requires d.Delete? && WellFormed(d) && d.rows.tail == "" && Acceptable(Print(d))
    ensures ParseDML(Print(d)) == Expected(d) <==> Uncommented(d.rows.predicate_)
    ensures StripComments(Print(d)) == Print(d) <==> Uncommented(d.rows.predicate_)
  {
    WordHasNoMark(d.table);
    UncommentedBehind("DELETE FROM " + d.table, " " + PrintFilter(d.rows));
    FilterIsUncommentedIff(d.rows);
    StripIsIdentityIff(Print(d));
    PredicateIsUncommented(Print(d));
    if Uncommented(d.rows.predicate_) { DeleteRoundTrip(Print(d), d); }
  }

  lemma DeleteStripped(table: string, f: Filter)
    requires IsWord(table)
    ensures StripComments(Print(Delete(table, f)))
      == "DELETE FROM " + table + (" " + ("WHERE" + (" " + StripComments(PrintWithTail(f)))))
  {
    DeleteHeadStays(table, " " + PrintFilter(f));
    StripBehind(" ", PrintFilter(f));
    FilterHeadStays(f);
  }

  /** What is read instead: the predicate without what the stripper takes for comments. */
  lemma DeleteReadsStripped(d: Dml)
    requires d.Delete? && WellFormed(d) && d.rows.tail == "" && Acceptable(Print(d))
    requires FilterOk(Filter(StripComments(d.rows.predicate_), ""))
    ensures ParseDML(Print(d)) == Expected(Delete(d.table, Filter(StripComments(d.rows.predicate_), "")))
  {
    DeleteStripped(d.table, d.rows);
    DeleteRoundTrip(Print(d), Delete(d.table, Filter(StripComments(d.rows.predicate_), "")));
  }

  /**
   Which parts of an UPDATE survive, when no comment runs from its SET clause into the WHERE clause and the
   clause is still closed without its comments: the predicate exactly if it holds no comment mark itself, and
   then the SET columns are those of the stripped clause.
   */
  lemma UpdateSurvives(d: Dml)
    requires d.Update? && WellFormed(d) && d.filter.Some? && d.filter.value.tail == "" && Acceptable(Print(d))
    requires CommentsClosed(PrintSets(d.sets)) && Closed(StripComments(PrintSets(d.sets)))
    ensures var (p, w) := (ParseDML(Print(d)), d.filter.value.predicate_);
      && (p.whereClause == w <==> Uncommented(w))
      && (Uncommented(w) ==> p == Expected(d).(setCols := ColumnsOf(StripComments(PrintSets(d.sets)))))
  {
    PredicateIsUncommented(Print(d));
    if Uncommented(d.filter.value.predicate_) {
      var f, s := d.filter.value, StripComments(PrintSets(d.sets));
      UpdateBodyStays(d);
      SetsStartPlain(d.sets);
      HeadCharStays(PrintSets(d.sets));
      ClosedBeforeBlank(s);
      SplitPrinted(s + " ", f);
      ColumnsIgnoreBlank(s);
      UpdateRead(Print(d), d.table, (s + " ") + PrintFilter(f));
    }
  }

  lemma UpdateBodyStays(d: Dml)
    requires d.Update? && WellFormed(d) && d.filter.Some? && CommentsClosed(PrintSets(d.sets))
    requires Uncommented(PrintWithTail(d.filter.value))
    ensures StripComments(Print(d)) ==
      "UPDATE " + d.table + " SET " + ((StripComments(PrintSets(d.sets)) + " ") + PrintFilter(d.filter.value))
  {
    var s, w := PrintSets(d.sets), PrintFilter(d.filter.value);
    UpdateHeadStays(d.table, (s + " ") + w);
    Assoc(s, " ", w);
    Assoc(StripComments(s), " ", w);
    StripsApart(s, " " + w);
    FilterIsUncommentedIff(d.filter.value);
    StripIsIdentityIff(" " + w);
  }

  /**
   What a line comment mark inside a value does to an UPDATE written on one line: the rest of the text is
   gone, the WHERE clause with it, and the SET columns are those in front of the mark.
   */
  lemma LineMarkCutsUpdate(d: Dml, a: string, b: string)
    requires d.Update? && WellFormed(d) && Acceptable(Print(d)) && '\n' !in Print(d)
    requires PrintSets(d.sets) == a + "--" + b && Uncommented(a + "-") && NoKeyword(a, "WHERE")
    ensures ParseDML(Print(d)) == ParsedDML("UPDATE", d.table, "", false, ColumnsOf(a), true)
  {
    SetsStartPlain(d.sets);
    LineMarkLeaves(d, a, b);
    NoKeywordBeforeBlank(a, "WHERE");
    SplitNothing(a + " ");
    ColumnsIgnoreBlank(a);
    UpdateRead(Print(d), d.table, a + " ");
  }

  lemma NoKeywordBeforeBlank(s: string, keyword: string)
    requires NoKeyword(s, keyword) && IsKeyword(keyword)
    ensures NoKeyword(s + " ", keyword)
  {
    var t, n := s + " ", |s|;
    assert t[0..n] == s && t[n] == ' ';
    forall i: nat ensures !KeywordAt(t, keyword, i) {
      LetterOf(t, keyword, i, 0);
      LetterOf(t, keyword, i, |keyword| - 1);
      if i < n { SliceKeyword(t, 0, n, keyword, i); }
    }
  }

  lemma LineMarkLeaves(d: Dml, a: string, b: string)
    requires d.Update? && WellFormed(d) && '\n' !in Print(d)
    requires PrintSets(d.sets) == a + "--" + b && Uncommented(a + "-")
    ensures StripComments(Print(d)) == "UPDATE " + d.table + " SET " + (a + " ")
    ensures a != "" && a[0] == PrintSets(d.sets)[0]
  {
    SetsStartPlain(d.sets);
    assert a != "";
    var w := if d.filter.None? then "" else " " + PrintFilter(d.filter.value);
    var head := "UPDATE " + d.table + " SET ";
    assert BodyOf(d) == a + "--" + (b + w);
    assert Print(d) == head + BodyOf(d);
    forall c | c in b + w ensures c != '\n' { assert c in BodyOf(d); assert c in Print(d); }
    LineMarkCuts(a, b + w);
    UncommentedPrefix(a);
    UpdateHeadStays(d.table, BodyOf(d));
  }

  /** Blocks opened in front of the mark are not closed there, so they stay. */
  lemma UncommentedPrefix(a: string)
    requires Uncommented(a + "-")
    ensures NoLineMark(a)
    ensures StripBlockComments(a + " ") == a + " "
  {
    var s, t := a + "-", a + " ";
    forall i: nat, j: nat | i < j < |t| ensures !BlockMark(t, i, j) {
      assert !BlockMark(s, i, j);
    }
    BlocksStay(t);
  }

  // ---------------------------------------------------------- second statements

  /** Closed texts put together are closed. */
  lemma ClosedJoin(a: string, b: string)
    requires Closed(a) && Closed(b)
    ensures Closed(a + b)
  {
    var s := a + b;
    assert s[0..|a|] == a && s[|a|..|s|] == b;
    SliceScan(s, 0, |a|, |a|);
    SliceScan(s, |a|, |s|, |b|);
  }

  /** Text without quotes and parentheses is closed. */
  lemma PlainIsClosed(s: string)
    requires forall j :: 0 <= j < |s| ==> s[j] != '\'' && s[j] != '(' && s[j] != ')'
    ensures Closed(s)
  {
    PlainRun(s, 0, |s|);
  }

  lemma ClosedJoinThree(a: string, b: string, c: string)
    requires Closed(a) && Closed(b) && Closed(c)
    ensures Closed(a + b + c) && Closed(a + (b + c))
  {
    ClosedJoin(a, b);
    ClosedJoin(a + b, c);
    Assoc(a, b, c);
  }

  lemma FilterIsClosed(f: Filter)
    requires FilterOk(f) && Closed(f.tail)
    ensures Closed(PrintFilter(f))
  {
    PlainIsClosed(" ");
    PlainIsClosed("WHERE");
    if f.tail != "" { ClosedJoinThree(f.predicate_, " ", f.tail); }
    ClosedJoinThree("WHERE", " ", PrintWithTail(f));
  }

  lemma UpdateIsClosed(table: string, clause: string)
    requires Closed(table) && Closed(clause)
    ensures Closed("UPDATE " + table + " SET " + clause)
  {
    PlainIsClosed("UPDATE ");
    PlainIsClosed(" SET ");
    ClosedJoinThree("UPDATE ", table, " SET ");
    ClosedJoin("UPDATE " + table + " SET ", clause);
  }

  lemma DeleteIsClosed(table: string, clause: string)
    requires Closed(table) && Closed(clause)
    ensures Closed("DELETE FROM " + table + clause)
  {
    PlainIsClosed("DELETE FROM ");
    ClosedJoinThree("DELETE FROM ", table, clause);
  }

  ghost predicate TailIsClosed(d: Dml) {
    match d
    case Update(_, _, filter) => filter.Some? ==> Closed(filter.value.tail)
    case Delete(_, f) => Closed(f.tail)
    case DeleteAll(_, tail) => Closed(tail)
  }

  /** A printed statement is closed if its tail is. */
  lemma PrintIsClosed(d: Dml)
    requires WellFormed(d) && TailIsClosed(d)
    ensures Closed(Print(d))
  {
    PlainIsClosed(d.table);
    PlainIsClosed("");
    PlainIsClosed(" ");
    match d
    case Update(table, sets, None) => UpdateIsClosed(table, PrintSets(sets));
    case Update(table, sets, Some(f)) =>
      FilterIsClosed(f);
      ClosedJoinThree(PrintSets(sets), " ", PrintFilter(f));
      UpdateIsClosed(table, (PrintSets(sets) + " ") + PrintFilter(f));
    case Delete(table, f) =>
      FilterIsClosed(f);
      ClosedJoin(" ", PrintFilter(f));
      DeleteIsClosed(table, " " + PrintFilter(f));
    case DeleteAll(table, tail) =>
      ClosedJoin(" ", tail);
      DeleteIsClosed(table, if tail == "" then "" else " " + tail);
  }

  /** A semicolon behind closed text starts a second statement exactly if more than blanks follows. */
  lemma SemicolonStartsStatement(text: string, more: string)
    requires TopLevel(text, |text|) && !HasSecondStatement(text)
    ensures TrimSpace(more) != "" ==> HasSecondStatement(text + ";" + more)
  {
    var s, n := text + ";" + more, |text|;
    CutPoints(text, ";", more);
    SliceScan(s, 0, n, n);
    assert s[n + 1..] == more;
    if TrimSpace(more) != "" { assert ExtraStatementAt(s, n); }
  }

  /** A text that is a printed statement, a semicolon and more than blanks, once its comments are gone, is turned away. */
  lemma SecondStatementRefused(text: string, d: Dml, more: string)
    requires WellFormed(d) && TailIsClosed(d)
    requires StripComments(text) == Print(d) + ";" + more && TrimSpace(more) != ""
    ensures ParseDML(text) == UNPARSEABLE
  {
    PrintIsClosed(d);
    if !HasSecondStatement(Print(d)) { SemicolonStartsStatement(Print(d), more); }
    EarlierStatementStays(Print(d), ";" + more);
    Assoc(Print(d), ";", more);
  }

  /** Behind a line comment mark of the same line nothing is read, no second statement either. */
  lemma SecondStatementHidden(text: string, more: string)
    requires EndsInLineComment(text) && '\n' !in more
    ensures ParseDML(text + more) == ParseDML(text)
  {
    LineSwallows(text, more);
  }

  lemma {:induction false} OneLineEnds(s: string)
    requires '\n' !in s && exists i: nat | i < |s| :: LineMarkAt(s, i)
    ensures EndsInLineComment(s)
    decreases |s|
  {
    var i: nat :| i < |s| && LineMarkAt(s, i);
    if !LineMarkAt(s, 0) {
      assert LineMarkAt(s[1..], i - 1);
      assert forall c :: c in s[1..] ==> c in s;
      OneLineEnds(s[1..]);
    } else {
      assert forall j :: 0 <= j < |s| ==> s[j] in s;
    }
  }

  /**
   When a second statement is seen. A printed statement on one line that ParseDML accepts by itself, followed by
   a semicolon and visible text on the same line, is turned away exactly if it holds no line comment mark. The
   statement opens no block comment here.
   */
  lemma SecondStatementSeenIff(d: Dml, more: string)
    requires WellFormed(d) && TailIsClosed(d) && Acceptable(Print(d))
    requires '\n' !in Print(d) && '\n' !in more && NoBlockOpens(Print(d))
    requires TrimSpace(StripComments(more)) != ""
    ensures ParseDML(Print(d) + ";" + more) == UNPARSEABLE <==> forall i: nat | i < |Print(d)| :: !LineMarkAt(Print(d), i)
  {
    var text := Print(d);
    Assoc(text, ";", more);
    NothingOpensNothingEnds(text);
    if Uncommented(text) {
      NoMarkNoEnd(text);
      LinesStay(text);
      StripIsIdentityIff(text);
      StripsApart(text, ";" + more);
      StripBehind(";", more);
      Assoc(text, ";", StripComments(more));
      SecondStatementRefused(text + ";" + more, d, StripComments(more));
    } else {
      OneLineEnds(text);
      SecondStatementHidden(text, ";" + more);
      HeadSurvives(d);
    }
  }

  predicate NoBlockOpens(s: string) {
    forall i: nat | i < |s| :: !BlockOpensAt(s, i)
  }

  lemma {:induction false} NothingOpensNothingEnds(s: string)
    requires NoBlockOpens(s)
    ensures !EndsInBlockComment(s)
    decreases |s|
  {
    if |s| >= 2 {
      assert !BlockOpensAt(s, 0);
      forall i: nat | i < |s[1..]| ensures !BlockOpensAt(s[1..], i) { assert !BlockOpensAt(s, i + 1); }
      NothingOpensNothingEnds(s[1..]);
    }
  }

  lemma {:induction false} NoMarkNoEnd(s: string)
    requires forall i: nat | i < |s| :: !LineMarkAt(s, i)
    ensures !EndsInLineComment(s)
    decreases |s|
  {
    if |s| >= 2 {
      assert !LineMarkAt(s, 0);
      forall i: nat | i < |s[1..]| ensures !LineMarkAt(s[1..], i) { assert !LineMarkAt(s, i + 1); }
      NoMarkNoEnd(s[1..]);
    }
  }

  /** Appending text does not hide a second statement. */
  lemma EarlierStatementStays(text: string, more: string)
    ensures HasSecondStatement(text) ==> HasSecondStatement(text + more)
  {
    if HasSecondStatement(text) {
      var i: nat :| i < |text| && ExtraStatementAt(text, i);
      ExtraStays(text, more, i);
    }
  }

  lemma ExtraStays(text: string, more: string, i: nat)
    requires ExtraStatementAt(text, i)
    ensures ExtraStatementAt(text + more, i)
  {
    var s := text + more;
    assert s[0..|text|] == text;
    SliceScan(s, 0, |text|, i);
    assert s[i + 1..] == text[i + 1..] + more;
    TrimmedPrefixStays(text[i + 1..], more);
  }

  lemma TrimmedPrefixStays(a: string, b: string)
    ensures TrimSpace(a + b) == "" ==> TrimSpace(a) == ""
  {
    TrimEmpty(a);
    TrimEmpty(a + b);
    if Blank(a + b) {
      forall j | 0 <= j < |a| ensures IsSpace(a[j]) { assert IsSpace((a + b)[j]); }
    }
  }

  // -------------------------------------------------------------- marks in literals

  /** A quoted text without quotes is closed, and the scanner is inside the literal in between. */
  lemma QuotedIsClosed(body: string)
    requires '\'' !in body
    ensures Closed("'" + body + "'")
    ensures forall i: nat | 1 <= i <= |body| + 1 :: InLiteral("'" + body + "'", i)
  {
    var s := "'" + body + "'";
    assert forall j :: 1 <= j <= |body| ==> s[j] == body[j - 1];
    assert s[0] == '\'' && !InLiteral(s, 0) && Depth(s, 0) == 0;
    forall i: nat | 1 <= i <= |body| + 1 ensures InLiteral(s, i) && Depth(s, i) == 0 { LiteralRun(s, 1, i); }
    LiteralRun(s, 1, |body| + 1);
    assert s[|body| + 1] == '\'';
  }

  /** c = 'body' */
  function LiteralTest(c: char, body: string): string {
    [c] + " = " + ("'" + body + "'")
  }

  /** A comparison with a literal is a row filter, whatever the literal holds. */
  lemma LiteralTestIsOk(c: char, body: string)
    requires IsWordByte(c) && '\'' !in body
    ensures FilterOk(Filter(LiteralTest(c, body), ""))
  {
    var w, lit, n := LiteralTest(c, body), "'" + body + "'", |body|;
    QuotedIsClosed(body);
    PlainIsClosed([c] + " = ");
    ClosedJoin([c] + " = ", lit);
    assert w[4..|w|] == lit && w[..4] == [c] + " = ";
    LiteralTestHasNo(c, body, "WHERE");
    LiteralTestHasNo(c, body, "ORDER BY");
    LiteralTestHasNo(c, body, "LIMIT");
    assert w[|w| - 1] == '\'';
  }

  lemma LiteralTestHasNo(c: char, body: string, keyword: string)
    requires IsWordByte(c) && '\'' !in body && IsKeyword(keyword) && |keyword| > 1 && IsWordByte(keyword[1])
    ensures NoKeyword(LiteralTest(c, body), keyword)
  {
    var w, lit := LiteralTest(c, body), "'" + body + "'";
    PlainIsClosed([c] + " = ");
    QuotedIsClosed(body);
    assert w[0..4] == [c] + " = " && w[4..|w|] == lit;
    assert w[1] == ' ' && w[2] == '=' && w[3] == ' ' && w[4] == '\'';
    SliceScan(w, 0, 4, 4);
    forall i: nat ensures !KeywordAt(w, keyword, i) {
      LetterOf(w, keyword, i, 0);
      LetterOf(w, keyword, i, 1);
      if 5 <= i < |w| { SliceScan(w, 4, |w|, i - 4); }
    }
  }

  /** Stripping brings in nothing but blanks. */
  lemma {:induction false} StripKeepsOut(s: string, c: char)
    requires c !in s && c != ' '
    ensures c !in StripLineComments(s) && c !in StripBlockComments(s)
    decreases |s|
  {
    if s != "" {
      assert s[0] in s && forall k, d | 0 <= k <= |s| && d in s[k..] :: d in s;
      StripKeepsOut(s[1..], c);
      if LineMarkAt(s, 0) { StripKeepsOut(s[LineEnd(s, 2)..], c); }
      if BlockAhead(s) { StripKeepsOut(s[BlockEnd(s, 2) + 2..], c); }
    }
  }

  /**
   A DELETE that compares with a literal is read as comparing with that literal less its comments. With a mark
   in it this is another statement.
   */
  lemma LiteralLosesComments(table: string, c: char, body: string)
    requires IsWord(table) && IsWordByte(c) && '\'' !in body && CommentsClosed(body)
    requires Acceptable(Print(Delete(table, Filter(LiteralTest(c, body), ""))))
    ensures ParseDML(Print(Delete(table, Filter(LiteralTest(c, body), ""))))
      == Expected(Delete(table, Filter(LiteralTest(c, StripComments(body)), "")))
    ensures LiteralTest(c, StripComments(body)) == LiteralTest(c, body) <==> Uncommented(body)
  {
    var d, stripped := Delete(table, Filter(LiteralTest(c, body), "")), StripComments(body);
    LiteralTestIsOk(c, body);
    StripKeepsOut(body, '\'');
    StripKeepsOut(StripLineComments(body), '\'');
    LiteralTestIsOk(c, stripped);
    LiteralTestStripped(c, body);
    DeleteReadsStripped(d);
    StripIsIdentityIff(body);
    LiteralTestTells(c, stripped, body);
  }

  lemma LiteralTestTells(c: char, a: string, b: string)
    ensures LiteralTest(c, a) == LiteralTest(c, b) <==> a == b
  {
    var s, t := LiteralTest(c, a), LiteralTest(c, b);
    assert s[5..|s| - 1] == a && t[5..|t| - 1] == b;
  }

  lemma LiteralTestStripped(c: char, body: string)
    requires IsWordByte(c) && CommentsClosed(body)
    ensures StripComments(LiteralTest(c, body)) == LiteralTest(c, StripComments(body))
  {
    var head := [c] + " = '";
    assert LiteralTest(c, body) == head + (body + "'");
    StripBehind(head, body + "'");
    StripsApart(body, "'");
    StripBehind("'", "");
    assert "'" + "" == "'";
    assert LiteralTest(c, StripComments(body)) == head + (StripComments(body) + "'");
  }

  /**
   An UPDATE on one line whose first value has a line comment mark in it loses its filter and every column but
   the first, whatever the other assignments are.
   */
  lemma MarkInFirstValue(d: Dml, x: string, y: string)
    requires d.Update? && WellFormed(d) && Acceptable(Print(d)) && '\n' !in Print(d)
    requires d.sets[0].value == "'" + x + "--" + y && ',' !in x
    requires var a := PrintAssignment(Assignment(d.sets[0].col, "'" + x)); Uncommented(a + "-") && NoKeyword(a, "WHERE")
    ensures ParseDML(Print(d)) == ParsedDML("UPDATE", d.table, "", false, [d.sets[0].col], true)
  {
    var first := Assignment(d.sets[0].col, "'" + x);
    var a := PrintAssignment(first);
    var b := y + if |d.sets| == 1 then "" else "," + (" " + PrintSets(d.sets[1..]));
    FirstValueApart(d.sets, x, y);
    LineMarkCutsUpdate(d, a, b);
    assert "" + a == a;
    OneAssignment("", first);
    OnePiece("'" + x, 0);
  }

  lemma FirstValueApart(sets: seq<Assignment>, x: string, y: string)
    requires sets != [] && sets[0].value == "'" + x + "--" + y
    ensures PrintSets(sets) == PrintAssignment(Assignment(sets[0].col, "'" + x)) + "--"
      + (y + if |sets| == 1 then "" else "," + (" " + PrintSets(sets[1..])))
  {
    var head, q := sets[0].col + " = ", "'" + x;
    var rest := if |sets| == 1 then "" else "," + (" " + PrintSets(sets[1..]));
    Apart(head, q, y, rest);
    assert PrintSets(sets) == (head + (q + "--" + y)) + rest by {
      if |sets| > 1 { Assoc(PrintAssignment(sets[0]), ",", " " + PrintSets(sets[1..])); }
    }
  }

  lemma Apart(a: string, b: string, c: string, d: string)
    ensures (a + (b + "--" + c)) + d == (a + b) + "--" + (c + d)
  {
  }

  // -------------------------------------------------------------- failing inputs

  lemma CharMissing(needle: string, text: string, k: nat)
    requires k < |needle| && forall c :: c in text ==> UpperChar(c) != needle[k]
    ensures !Occurs(needle, ToUpper(text))
  {
    var u := ToUpper(text);
    assert forall i :: 0 <= i < |u| ==> text[i] in text;
    forall i: nat | i <= |u| ensures !OccursAt(needle, u, i) {
      if i + |needle| <= |u| { assert u[i..i + |needle|][k] == u[i + k]; }
    }
  }

  /** Without semicolons and the letters G and J nothing makes ParseDML refuse a text. */
  predicate Harmless(s: string) {
    forall c :: c in s ==> c != ';' && UpperChar(c) != 'J' && UpperChar(c) != 'G'
  }

  lemma PlainIsAcceptable(text: string)
    requires Harmless(StripComments(text))
    ensures Acceptable(text)
  {
    var q := StripComments(text);
    assert forall i :: 0 <= i < |q| ==> q[i] in q;
    CharMissing(" JOIN ", q, 1);
    CharMissing(" USING ", q, 5);
  }

  /** UPDATE table SET a = '--', b = v WHERE ... */
  function DashUpdate(table: string, a: string, b: string, v: string, f: Filter): Dml {
    Update(table, [Assignment(a, "'--'"), Assignment(b, v)], Some(f))
  }

  lemma DashBalance()
    ensures Balance("'--'") == 0 && StrayColumns("'--'") == []
  {
    assert "'--'"[1..] == "--'" && "--'"[1..] == "-'" && "-'"[1..] == "'" && "'"[1..] == "";
    assert Balance("'") == 0 && Balance("-'") == 0 && Balance("--'") == 0;
    OnePiece("'--'", 0);
  }

  lemma WordIsPlain(v: string)
    requires IsWord(v)
    ensures Closed(v) && StrayColumns(v) == [] && '\n' !in v
  {
    PlainIsClosed(v);
    assert forall c :: c in v ==> IsWordByte(c);
    OnePiece(v, 0);
  }

  lemma DashSets(a: string, b: string, v: string)
    requires IsWord(a) && IsWord(b) && IsWord(v)
    ensures var sets := [Assignment(a, "'--'"), Assignment(b, v)];
      SetsOk(sets) && SeparatorsOpen(sets) && NoStray(sets) && Closed(PrintSets(sets)) && '\n' !in PrintSets(sets)
  {
    var sets := [Assignment(a, "'--'"), Assignment(b, v)];
    DashBalance();
    WordIsPlain(v);
    assert sets[1..] == [Assignment(b, v)];
    QuotedIsClosed("--");
    assert "'" + "--" + "'" == "'--'";
    AssignmentIsClosed(a, "'--'");
    AssignmentIsClosed(b, v);
    PlainIsClosed(",");
    PlainIsClosed(" ");
    ClosedJoin(" ", PrintAssignment(sets[1]));
    ClosedJoinThree(PrintAssignment(sets[0]), ",", " " + PrintAssignment(sets[1]));
  }

  lemma AssignmentIsClosed(a: string, v: string)
    requires IsWord(a) && Closed(v) && '\n' !in v
    ensures Closed(PrintAssignment(Assignment(a, v))) && '\n' !in PrintAssignment(Assignment(a, v))
  {
    WordIsPlain(a);
    PlainIsClosed(" = ");
    ClosedJoinThree(a, " = ", v);
  }

  /** What stands in front of the mark. */
  lemma DashFront(a: string)
    requires IsWord(a) && UpperChar(a[0]) != 'W'
    ensures var s := PrintAssignment(Assignment(a, "'"));
      Uncommented(s + "-") && NoKeyword(s, "WHERE") && '\n' !in s
  {
    var s, n := PrintAssignment(Assignment(a, "'")), |a|;
    WordHasNoMark(a);
    UncommentedBehind(a + " = ", "'" + "-");
    assert s + "-" == (a + " = ") + ("'" + "-");
    assert s[n] == ' ' && s[n + 1] == '=' && s[n + 2] == ' ' && s[n + 3] == '\'';
    forall i: nat ensures !KeywordAt(s, "WHERE", i) {
      LetterOf(s, "WHERE", i, 0);
      assert 0 < i < n ==> IsWordByte(s[i - 1]);
    }
  }

  /**
   A comment mark inside a literal, in a clause whose separators are open and that has no stray assignment: the
   filter and column b are gone.
   */
  lemma DashInLiteralLosesFilter(table: string, a: string, b: string, v: string, f: Filter)
    requires IsWord(table) && IsWord(a) && IsWord(b) && IsWord(v) && UpperChar(a[0]) != 'W' && Harmless(table) && Harmless(a)
    requires FilterOk(f) && '\n' !in PrintFilter(f)
    ensures var d := DashUpdate(table, a, b, v, f);
      && WellFormed(d) && SeparatorsOpen(d.sets) && NoStray(d.sets) && Acceptable(Print(d))
      && ParseDML(Print(d)) == ParsedDML("UPDATE", table, "", false, [a], true)
  {
    var d, front := DashUpdate(table, a, b, v, f), PrintAssignment(Assignment(a, "'"));
    DashSets(a, b, v);
    DashFront(a);
    DashOneLine(d);
    assert "'" + "" + "--" + "'" == "'--'" && "'" + "" == "'";
    FirstValueApart(d.sets, "", "'");
    LineMarkLeaves(d, front, "'" + ("," + (" " + PrintSets(d.sets[1..]))));
    DashIsAcceptable(d, front);
    MarkInFirstValue(d, "", "'");
  }

  lemma DashOneLine(d: Dml)
    requires d.Update? && IsWord(d.table) && d.sets != [] && d.filter.Some?
    requires '\n' !in PrintSets(d.sets) && '\n' !in PrintFilter(d.filter.value)
    ensures '\n' !in Print(d)
  {
    WordHasNoMark(d.table);
    assert '\n' !in "UPDATE " + d.table + " SET ";
    assert '\n' !in (PrintSets(d.sets) + " ") + PrintFilter(d.filter.value);
  }

  lemma DashIsAcceptable(d: Dml, front: string)
    requires d.Update? && d.sets != [] && Harmless(d.table) && Harmless(d.sets[0].col)
    requires front == PrintAssignment(Assignment(d.sets[0].col, "'"))
    requires StripComments(Print(d)) == "UPDATE " + d.table + " SET " + (front + " ")
    ensures Acceptable(Print(d))
  {
    assert Harmless("UPDATE ") && Harmless(" SET ") && Harmless(" = ") && Harmless("'") && Harmless(" ");
    assert Harmless(front);
    PlainIsAcceptable(Print(d));
  }

  /** DELETE FROM table WHERE c = 'body' */
  function LiteralDelete(table: string, c: char, body: string): Dml {
    Delete(table, Filter(LiteralTest(c, body), ""))
  }

  lemma DeleteIsAcceptable(d: Dml)
    requires d.Delete? && IsWord(d.table) && d.rows.tail == ""
    requires Harmless(d.table) && Harmless(StripComments(d.rows.predicate_))
    ensures Acceptable(Print(d))
  {
    DeleteStripped(d.table, d.rows);
    assert Harmless("DELETE FROM ") && Harmless(" ") && Harmless("WHERE");
    PlainIsAcceptable(Print(d));
  }

  lemma BlockIsStripped()
    ensures CommentsClosed("/**/") && StripComments("/**/") == " "
  {
    var s := "/**/";
    LinesStay(s);
    NoMarkNoEnd(s);
    assert s == "" + "/*" + "" + "*/" + "";
    BlockMarkCuts("", "", "");
    BlockEndFound(s, "", "");
    assert s[4..] == "";
  }

  /** A literal that looks like an empty block comment is read as one blank. */
  lemma BlockInLiteralChangesFilter()
    ensures var d := LiteralDelete("t", 'a', "/**/");
      && WellFormed(d) && Acceptable(Print(d))
      && ParseDML(Print(d)) == Expected(LiteralDelete("t", 'a', " ")) != Expected(d)
  {
    LiteralTestIsOk('a', "/**/");
    BlockIsStripped();
    LiteralTestStripped('a', "/**/");
    assert Harmless(LiteralTest('a', " "));
    DeleteIsAcceptable(LiteralDelete("t", 'a', "/**/"));
    LiteralLosesComments("t", 'a', "/**/");
    LiteralTestTells('a', " ", "/**/");
  }

  // ---- a block comment that runs from one literal into another

  /** c = 'a' OR e = 'b' */
  function OrTest(c: char, a: string, e: char, b: string): string {
    LiteralTest(c, a) + " " + ("OR" + " " + LiteralTest(e, b))
  }

  lemma OrTestHasNo(c: char, a: string, e: char, b: string, keyword: string)
    requires IsWordByte(c) && IsWordByte(e) && '\'' !in a && '\'' !in b
    requires keyword in ["WHERE", "ORDER BY", "LIMIT"]
    ensures NoKeyword(OrTest(c, a, e, b), keyword)
  {
    var x, y := LiteralTest(c, a), LiteralTest(e, b);
    LiteralTestHasNo(c, a, keyword);
    LiteralTestHasNo(e, b, keyword);
    LiteralTestIsOk(c, a);
    PlainIsClosed("OR");
    assert x[|x| - 1] == '\'';
    forall i: nat ensures !KeywordAt(OrTest(c, a, e, b), keyword, i) {
      var s := OrTest(c, a, e, b);
      assert s[|x| - 1] == '\'' && s[|x|] == ' ' && s[|x| + 1] == 'O' && s[|x| + 2] == 'R' && s[|x| + 3] == ' ';
      LetterOf(s, keyword, i, |x| - 1 - i);
      LetterOf(s, keyword, i, 0);
      if KeywordAt(s, keyword, i) {
        KeywordInJoined(x, "OR" + " " + y, keyword, i);
        LetterOf("OR" + " " + y, keyword, i - |x| - 1, 0);
        LetterOf("OR" + " " + y, keyword, i - |x| - 1, 2);
        KeywordInJoined("OR", y, keyword, i - |x| - 1);
      }
    }
  }

  lemma OrTestIsOk(c: char, a: string, e: char, b: string)
    requires IsWordByte(c) && IsWordByte(e) && '\'' !in a && '\'' !in b
    ensures FilterOk(Filter(OrTest(c, a, e, b), ""))
  {
    LiteralTestIsOk(c, a);
    LiteralTestIsOk(e, b);
    OrTestHasNo(c, a, e, b, "WHERE");
    OrTestHasNo(c, a, e, b, "ORDER BY");
    OrTestHasNo(c, a, e, b, "LIMIT");
    PlainIsClosed(" ");
    PlainIsClosed("OR");
    ClosedJoinThree("OR", " ", LiteralTest(e, b));
    ClosedJoinThree(LiteralTest(c, a), " ", "OR" + " " + LiteralTest(e, b));
    var w, y := OrTest(c, a, e, b), LiteralTest(e, b);
    assert w[0] == c && w[|w| - 1] == y[|y| - 1];
  }

  /** Characters that open or close neither literals nor comments. */
  predicate NoMarks(s: string) {
    '\'' !in s && '-' !in s && '/' !in s && '*' !in s
  }

  /** A block comment opened in one literal and closed in another takes both quotes and what is between them along. */
  lemma OrTestStripped(c: char, x: string, e: char, z: string)
    requires IsWordByte(c) && IsWordByte(e) && NoMarks(x) && NoMarks(z)
    ensures StripComments(OrTest(c, x + "/*", e, "*/" + z)) == LiteralTest(c, x + " " + z)
  {
    var head, y := [c] + " = '" + x, "' OR " + [e] + " = '";
    var w := OrTest(c, x + "/*", e, "*/" + z);
    OrTestText(c, x, e, z);
    assert '-' !in head && '-' !in y && '-' !in z + "'" && '-' !in w;
    NoDashNoLine(w);
    LinesStay(w);
    assert '/' !in head && '*' !in y && '/' !in z + "'";
    forall i: nat | i < |head| ensures !BlockOpensAt(head, i) { assert head[i] in head; }
    forall j: nat | j < |y| ensures !BlockClosesAt(y, j) { assert y[j] in y; }
    BlockMarkCuts(head, y, z + "'");
    NoDashNoLine(z + "'");
    UncommentedBehind(z + "'", "");
    assert z + "'" + "" == z + "'" && Uncommented("");
    BlocksStay(z + "'");
    LiteralTestJoined(c, x, z);
  }

  lemma NoDashNoLine(s: string)
    requires '-' !in s
    ensures forall i: nat | i < |s| :: !LineMarkAt(s, i)
  {
    forall i: nat | i < |s| ensures !LineMarkAt(s, i) { assert s[i] in s; }
  }

  lemma OrTestText(c: char, x: string, e: char, z: string)
    ensures OrTest(c, x + "/*", e, "*/" + z) == ([c] + " = '" + x) + "/*" + ("' OR " + [e] + " = '") + "*/" + (z + "'")
  {
  }

  lemma LiteralTestJoined(c: char, x: string, z: string)
    ensures ([c] + " = '" + x) + " " + (z + "'") == LiteralTest(c, x + " " + z)
  {
  }

  lemma BlockAcrossLiterals(table: string, c: char, x: string, e: char, z: string)
    requires IsWord(table) && IsWordByte(c) && IsWordByte(e) && NoMarks(x) && NoMarks(z)
    requires Harmless(table) && Harmless([c]) && Harmless(x) && Harmless(z)
    ensures var d := Delete(table, Filter(OrTest(c, x + "/*", e, "*/" + z), ""));
      WellFormed(d) && Acceptable(Print(d)) && ParseDML(Print(d)) == Expected(LiteralDelete(table, c, x + " " + z))
  {
    var d := Delete(table, Filter(OrTest(c, x + "/*", e, "*/" + z), ""));
    OrTestIsOk(c, x + "/*", e, "*/" + z);
    OrTestStripped(c, x, e, z);
    LiteralTestIsOk(c, x + " " + z);
    JoinedIsHarmless(c, x, z);
    DeleteIsAcceptable(d);
    DeleteReadsStripped(d);
  }

  lemma JoinedIsHarmless(c: char, x: string, z: string)
    requires Harmless([c]) && Harmless(x) && Harmless(z)
    ensures Harmless(LiteralTest(c, x + " " + z))
  {
    assert Harmless(" = ") && Harmless("'") && Harmless(" ");
  }

  /** What is left of a one-line comparison with a literal that holds a line comment mark. */
  lemma LiteralTestCut(c: char, x: string, y: string)
    requires IsWordByte(c) && Uncommented(x + "-") && '\n' !in y
    ensures StripComments(LiteralTest(c, x + "--" + y)) == LiteralTest(c, x)[..|x| + 5] + " "
  {
    var head := [c] + " = '";
    assert LiteralTest(c, x + "--" + y) == head + (x + "--" + (y + "'"));
    UncommentedPrefix(x);
    LineMarkCuts(x, y + "'");
    StripBehind(head, x + "--" + (y + "'"));
    assert LiteralTest(c, x)[..|x| + 5] + " " == head + (x + " ");
  }

  /**
   A DELETE on one line whose literal holds a line comment mark hides whatever follows it: the text is read as if
   it ended there, and is not refused.
   */
  lemma MarkInLiteralHidesStatement(table: string, c: char, x: string, y: string, more: string)
    requires IsWord(table) && IsWordByte(c) && '\'' !in x && '\'' !in y && '\n' !in x && '\n' !in y && '\n' !in more
    requires Acceptable(Print(LiteralDelete(table, c, x + "--" + y)))
    ensures var text := Print(LiteralDelete(table, c, x + "--" + y));
      ParseDML(text + more) == ParseDML(text) && ParseDML(text).parseable
  {
    var d := LiteralDelete(table, c, x + "--" + y);
    LiteralTestIsOk(c, x + "--" + y);
    HeadSurvives(d);
    LiteralDeleteOneLine(table, c, x, y);
    OneLineEnds(Print(d));
    SecondStatementHidden(Print(d), more);
  }

  lemma LiteralDeleteOneLine(table: string, c: char, x: string, y: string)
    requires IsWord(table) && IsWordByte(c) && '\n' !in x && '\n' !in y
    ensures var text := Print(LiteralDelete(table, c, x + "--" + y));
      '\n' !in text && exists i: nat | i < |text| :: LineMarkAt(text, i)
  {
    var text, w := Print(LiteralDelete(table, c, x + "--" + y)), LiteralTest(c, x + "--" + y);
    var head := "DELETE FROM " + table + (" " + ("WHERE" + " "));
    WordHasNoMark(table);
    assert text == head + w;
    assert '\n' !in head && '\n' !in w;
    assert w == ([c] + " = '" + x) + "--" + (y + "'");
    assert LineMarkAt(w, |x| + 5);
    assert LineMarkAt(text, |head| + |x| + 5);
  }

  /** DELETE FROM t WHERE a = '--'; DROP TABLE x is accepted as one DELETE. */
  lemma DashHidesSecondStatement()
    ensures ParseDML(Print(LiteralDelete("t", 'a', "--")) + "; DROP TABLE x").parseable
  {
    LiteralTestCut('a', "", "");
    assert "" + "--" + "" == "--";
    assert Harmless(LiteralTest('a', "")[..5] + " ");
    DeleteIsAcceptable(LiteralDelete("t", 'a', "--"));
    MarkInLiteralHidesStatement("t", 'a', "", "", "; DROP TABLE x");
  }
}
