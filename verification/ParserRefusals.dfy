/**
 What ParseDML turns away, and how freely it reads the rest: joins, USING, qualified tables, and statements
 in any letter case, with any blanks and quoted names.
 */
module ParserRefusals {
  import opened Text
  import opened Scanner
  import opened CommentStripper
  import opened Parser
  import opened ParserRoundTrip
  import opened ParserComments

  /** A text ParseDML reads holds one statement on one table of its own, and no join. */
  lemma ParsedIsSingleTable(text: string)
    requires ParseDML(text).parseable
    ensures var (p, q) := (ParseDML(text), StripComments(text));
      && (p.verb == "UPDATE" || p.verb == "DELETE")
      && p.table != "" && '.' !in p.table && ',' !in p.table
      && !HasSecondStatement(q) && !Occurs(" JOIN ", ToUpper(q)) && !Occurs(" USING ", ToUpper(q))
  {
  }

  /** The word JOIN or USING between blanks and outside comments, in any letter case. */
  lemma JoinIsRefused(a: string, word: string, b: string)
    requires CommentsClosed(a) && ToUpper(word) in ["JOIN", "USING"]
    ensures ParseDML(a + " " + word + " " + b) == UNPARSEABLE
  {
    JoinOccurs(a, word, b);
    UpperWord(word);
    assert " " + "JOIN" + " " == " JOIN " && " " + "USING" + " " == " USING ";
    OccurrenceIsRefused(a + " " + word + " " + b, " " + ToUpper(word) + " ");
  }

  lemma JoinOccurs(a: string, word: string, b: string)
    requires CommentsClosed(a) && ToUpper(word) in ["JOIN", "USING"]
    ensures Occurs(ToUpper(" " + word + " "), ToUpper(StripComments(a + " " + word + " " + b)))
  {
    var mid := " " + word + " ";
    WordHasNoMarks(word);
    Between(a, word, b);
    StripsApart(a, mid + b);
    StripBehind(mid, b);
    UpperOccurs(StripComments(a), mid, StripComments(b));
  }

  lemma Between(a: string, word: string, b: string)
    ensures a + " " + word + " " + b == a + ((" " + word + " ") + b)
  {
  }

  lemma OccurrenceIsRefused(text: string, word: string)
    requires word in [" JOIN ", " USING "] && Occurs(word, ToUpper(StripComments(text)))
    ensures ParseDML(text) == UNPARSEABLE
  {
  }

  lemma UpperWord(word: string)
    ensures ToUpper(" " + word + " ") == " " + ToUpper(word) + " "
  {
  }

  lemma WordHasNoMarks(word: string)
    requires ToUpper(word) in ["JOIN", "USING"]
    ensures '-' !in " " + word + " " && '/' !in " " + word + " "
  {
    var u := ToUpper(word);
    forall c | c in word ensures c != '-' && c != '/' {
      var i :| 0 <= i < |word| && word[i] == c;
      assert u[i] == UpperChar(word[i]) && u[i] in u;
    }
  }

  lemma UpperOccurs(x: string, mid: string, y: string)
    ensures Occurs(ToUpper(mid), ToUpper(x + (mid + y)))
  {
    var s, u := x + (mid + y), ToUpper(x + (mid + y));
    assert u[|x|..|x| + |mid|] == ToUpper(mid) by {
      assert forall j :: 0 <= j < |mid| ==> s[|x| + j] == mid[j];
    }
    assert OccursAt(ToUpper(mid), u, |x|);
  }

  /** DELETE FROM t USING ... is refused, whatever follows. */
  lemma DeleteUsingIsRefused(table: string, using: string, rest: string)
    requires IsWord(table) && ToUpper(using) == "USING"
    ensures ParseDML("DELETE FROM " + table + " " + using + " " + rest) == UNPARSEABLE
  {
    WordHasNoMark(table);
    PlainIsClosedText("DELETE FROM " + table);
    JoinIsRefused("DELETE FROM " + table, using, rest);
  }

  /** So is an UPDATE that sets a value or filters by a text with a join in it. */
  lemma UpdateJoinIsRefused(table: string, before: string, join: string, after: string)
    requires IsWord(table) && CommentsClosed("UPDATE " + table + " SET " + before) && ToUpper(join) == "JOIN"
    ensures ParseDML("UPDATE " + table + " SET " + before + " " + join + " " + after) == UNPARSEABLE
  {
    JoinIsRefused("UPDATE " + table + " SET " + before, join, after);
  }

  lemma {:induction false} PlainIsClosedText(s: string)
    requires '-' !in s && '/' !in s
    ensures CommentsClosed(s)
  {
    forall i: nat | i < |s| ensures !LineMarkAt(s, i) { assert s[i] in s; }
    NoMarkNoEnd(s);
    LinesStay(s);
    forall i: nat | i < |s| ensures !BlockOpensAt(s, i) { assert s[i] in s; }
    NothingOpensNothingEnds(s);
  }

  // ------------------------------------------------------------------ spelling

  /** What ParseDML makes of any UPDATE head, whatever its letter case, blanks and quote marks. */
  lemma UpdateSpelled(text: string, q: string, verb: nat, table: nat, tableEnd: nat, set_: nat, body: nat)
    requires q == StripComments(text) && Acceptable(text) && UpdateHeadIs(q, verb, table, tableEnd, set_, body)
    ensures var (t, s) := (UnquoteIdent(q[table..tableEnd]), SplitWhere(q[body..]));
      ParseDML(text) == if t == "" || '.' in t || ',' in t then UNPARSEABLE
        else ParsedDML("UPDATE", t, s.where, s.hasWhere, ColumnsOf(s.before), true)
  {
    UpdateHeadAt(q, verb, table, tableEnd, set_, body);
  }

  lemma DeleteSpelled(text: string, q: string, verb: nat, from: nat, table: nat, tableEnd: nat, body: nat)
    requires q == StripComments(text) && Acceptable(text) && DeleteHeadIs(q, verb, from, table, tableEnd, body)
    ensures var (t, s) := (UnquoteIdent(q[table..tableEnd]), SplitWhere(q[body..]));
      ParseDML(text) == if t == "" || '.' in t || ',' in t then UNPARSEABLE
        else ParsedDML("DELETE", t, s.where, s.hasWhere, [], true)
  {
    DeleteHeadAt(q, verb, from, table, tableEnd, body);
  }

  /** A SET clause of nothing but two blanks or more, which the pattern takes with its last blank for a body. */
  predicate BlankSetIs(q: string, verb: nat, table: nat, tableEnd: nat, set_: nat) {
    && AllIn(IsPatternSpace, q, 0, verb) && LettersAt(q, "UPDATE", verb)
    && verb + 6 < table && AllIn(IsPatternSpace, q, verb + 6, table)
    && table < tableEnd && AllIn(IsTableByte, q, table, tableEnd)
    && tableEnd < set_ && AllIn(IsPatternSpace, q, tableEnd, set_) && LettersAt(q, "SET", set_)
    && set_ + 5 <= |q| && AllIn(IsPatternSpace, q, set_ + 3, |q|)
  }

  /** Such a text is read as an UPDATE whose body is that one blank. */
  lemma BlankSetSpelled(text: string, q: string, verb: nat, table: nat, tableEnd: nat, set_: nat)
    requires q == StripComments(text) && Acceptable(text) && BlankSetIs(q, verb, table, tableEnd, set_)
    ensures var (t, s) := (UnquoteIdent(q[table..tableEnd]), SplitWhere(q[|q| - 1..]));
      ParseDML(text) == if t == "" || '.' in t || ',' in t then UNPARSEABLE
        else ParsedDML("UPDATE", t, s.where, s.hasWhere, ColumnsOf(s.before), true)
  {
    BlankSetAt(q, verb, table, tableEnd, set_);
  }

  lemma BlankSetAt(q: string, verb: nat, table: nat, tableEnd: nat, set_: nat)
    requires BlankSetIs(q, verb, table, tableEnd, set_)
    ensures MatchUpdateHead(q) == Head(q[table..tableEnd], q[|q| - 1..])
  {
    LetterOf(q, "UPDATE", verb, 0);
    LetterOf(q, "SET", set_, 0);
    RunIs(IsPatternSpace, q, 0, verb);
    RunIs(IsPatternSpace, q, verb + 6, table);
    RunIs(IsTableByte, q, table, tableEnd);
    RunIs(IsPatternSpace, q, tableEnd, set_);
    RunIs(IsPatternSpace, q, set_ + 3, |q|);
  }

  ghost predicate HasUpdateHead(q: string) {
    || (exists verb: nat, table: nat, tableEnd: nat, set_: nat, body: nat ::
          UpdateHeadIs(q, verb, table, tableEnd, set_, body))
    || (exists verb: nat, table: nat, tableEnd: nat, set_: nat :: BlankSetIs(q, verb, table, tableEnd, set_))
  }

  ghost predicate HasDeleteHead(q: string) {
    exists verb: nat, from: nat, table: nat, tableEnd: nat, body: nat :: DeleteHeadIs(q, verb, from, table, tableEnd, body)
  }

  /** Nothing else is read: without such a head, complete with blanks and table, ParseDML gives up. */
  lemma ParsedHasHead(text: string)
    requires ParseDML(text).parseable
    ensures if ParseDML(text).verb == "UPDATE" then HasUpdateHead(StripComments(text)) else HasDeleteHead(StripComments(text))
  {
    var q := StripComments(text);
    if MatchUpdateHead(q).Head? { UpdateHeadParsed(q); } else { DeleteHeadParsed(q); }
  }

  lemma UpdateHeadParsed(q: string)
    requires MatchUpdateHead(q).Head?
    ensures HasUpdateHead(q)
  {
    var verb := Run(IsPatternSpace, q, 0);
    RunHolds(IsPatternSpace, q, 0);
    var table := Run(IsPatternSpace, q, verb + 6);
    RunHolds(IsPatternSpace, q, verb + 6);
    var tableEnd := Run(IsTableByte, q, table);
    RunHolds(IsTableByte, q, table);
    var set_ := Run(IsPatternSpace, q, tableEnd);
    RunHolds(IsPatternSpace, q, tableEnd);
    var body := Run(IsPatternSpace, q, set_ + 3);
    RunHolds(IsPatternSpace, q, set_ + 3);
    if body < |q| {
      assert UpdateHeadIs(q, verb, table, tableEnd, set_, body);
    } else {
      assert BlankSetIs(q, verb, table, tableEnd, set_);
    }
  }

  lemma DeleteHeadParsed(q: string)
    requires MatchDeleteHead(q).Head?
    ensures HasDeleteHead(q)
  {
    var verb := Run(IsPatternSpace, q, 0);
    RunHolds(IsPatternSpace, q, 0);
    var from := FromParts(q, verb + 6);
    var table, tableEnd, body := TableParts(q, from + 4);
    assert DeleteHeadIs(q, verb, from, table, tableEnd, body);
  }

  lemma FromParts(q: string, i: nat) returns (from: nat)
    requires i <= |q| && FromHead(q, i).Head?
    ensures i < from && from + 4 <= |q| && AllIn(IsPatternSpace, q, i, from) && LettersAt(q, "FROM", from)
    ensures TableHead(q, from + 4).Head?
  {
    from := Run(IsPatternSpace, q, i);
    RunHolds(IsPatternSpace, q, i);
  }

  lemma TableParts(q: string, i: nat) returns (table: nat, tableEnd: nat, body: nat)
    requires i <= |q| && TableHead(q, i).Head?
    ensures i < table && AllIn(IsPatternSpace, q, i, table) && table < tableEnd && AllIn(IsTableByte, q, table, tableEnd)
    ensures AllIn(IsPatternSpace, q, tableEnd, body)
    ensures (body < |q| ==> !IsPatternSpace(q[body])) && (tableEnd < |q| ==> !IsTableByte(q[tableEnd]))
  {
    table := Run(IsPatternSpace, q, i);
    RunHolds(IsPatternSpace, q, i);
    tableEnd := Run(IsTableByte, q, table);
    RunHolds(IsTableByte, q, table);
    body := Run(IsPatternSpace, q, tableEnd);
    RunHolds(IsPatternSpace, q, tableEnd);
  }

  lemma {:induction false} RunHolds(cls: char -> bool, s: string, i: nat)
    requires i <= |s|
    ensures var r := Run(cls, s, i); AllIn(cls, s, i, r) && (r < |s| ==> !cls(s[r]))
    decreases |s| - i
  {
    if i < |s| && cls(s[i]) { RunHolds(cls, s, i + 1); }
  }

  /** The marks a dialect may quote a name with. */
  predicate QuotePair(open: char, close: char) {
    (open == '`' && close == '`') || (open == '"' && close == '"') || (open == '[' && close == ']')
  }

  /** A quoted word stands for the word. */
  lemma QuotedWord(open: char, name: string, close: char)
    requires QuotePair(open, close) && IsWord(name)
    ensures UnquoteIdent([open] + name + [close]) == name
  {
    var s, t := [open] + name + [close], name + [close];
    assert IsWordByte(name[0]) && IsWordByte(name[|name| - 1]);
    TrimmedIsFixed(s);
    assert s[1..] == t && t[0] == name[0];
    assert TrimQuotesLeft(t) == t;
    assert TrimQuotesLeft(s) == t;
    assert t[..|name|] == name && TrimQuotesRight(name) == name;
  }

  /** An assignment to a quoted column names that column. */
  lemma QuotedColumn(open: char, name: string, close: char, lead: string, value: string)
    requires QuotePair(open, close) && IsWord(name) && IsLead(lead)
    ensures PartColumn(lead + ([open] + name + [close]) + " = " + value) == [name]
  {
    var quoted := [open] + name + [close];
    var before := lead + quoted + " ";
    QuotedWord(open, name, close);
    assert lead + quoted + " = " + value == before + ("= " + value);
    assert '=' !in before by { assert forall c :: c in name ==> IsWordByte(c); assert forall c :: c in lead ==> c == ' '; }
    IndexOfFirst(before, "= " + value);
    OnePart(before, "= " + value);
    TrimAround(lead, quoted, " ");
  }

  /** A dot with word bytes on both sides of it, such as in a table qualified by its schema. */
  ghost predicate Qualified(t: string) {
    exists i: nat, m: nat, j: nat :: i < m < j < |t| && IsWordByte(t[i]) && t[m] == '.' && IsWordByte(t[j])
  }

  /** Unquoting takes nothing from between two word bytes. */
  lemma InnerStays(t: string, i: nat, m: nat, j: nat)
    requires i < m < j < |t| && IsWordByte(t[i]) && IsWordByte(t[j])
    ensures t[m] in TrimQuotesRight(TrimQuotesLeft(t))
  {
    LeftKeeps(t, i, m);
    var u := TrimQuotesLeft(t);
    var n := |t| - |u|;
    assert u[m - n] == t[m] && u[j - n] == t[j];
    RightKeeps(u, m - n, j - n);
  }

  lemma QualifiedIsInvalid(t: string)
    requires IsTableText(t) && Qualified(t)
    ensures !ValidTable(UnquoteIdent(t))
  {
    var i: nat, m: nat, j: nat :| i < m < j < |t| && IsWordByte(t[i]) && t[m] == '.' && IsWordByte(t[j]);
    assert IsTableByte(t[0]) && IsTableByte(t[|t| - 1]);
    TrimmedIsFixed(t);
    InnerStays(t, i, m, j);
  }

  /** A table qualified by a schema, quoted or not, is refused whatever else the statement says. */
  lemma QualifiedUpdateIsRefused(text: string, q: string, verb: nat, table: nat, tableEnd: nat, set_: nat, body: nat)
    requires q == StripComments(text) && UpdateHeadIs(q, verb, table, tableEnd, set_, body) && Qualified(q[table..tableEnd])
    ensures ParseDML(text) == UNPARSEABLE
  {
    UpdateHeadAt(q, verb, table, tableEnd, set_, body);
    QualifiedIsInvalid(q[table..tableEnd]);
  }

  lemma QualifiedDeleteIsRefused(text: string, q: string, verb: nat, from: nat, table: nat, tableEnd: nat, body: nat)
    requires q == StripComments(text) && DeleteHeadIs(q, verb, from, table, tableEnd, body) && Qualified(q[table..tableEnd])
    ensures ParseDML(text) == UNPARSEABLE
  {
    DeleteHeadAt(q, verb, from, table, tableEnd, body);
    QualifiedIsInvalid(q[table..tableEnd]);
    InvalidDeleteIsRefused(text, q[table..tableEnd], q[body..]);
  }

  lemma InvalidDeleteIsRefused(text: string, t: string, body: string)
    requires MatchUpdateHead(StripComments(text)) == NoHead && MatchDeleteHead(StripComments(text)) == Head(t, body)
    requires !ValidTable(UnquoteIdent(t))
    ensures ParseDML(text) == UNPARSEABLE
  {
  }

  /** UPDATE schema.table and DELETE FROM schema.table, for any words and whatever follows. */
  lemma DottedUpdateIsRefused(schema: string, table: string, rest: string)
    requires IsWord(schema) && IsWord(table) && rest != "" && !IsSpace(rest[0]) && rest[0] != '-' && rest[0] != '/'
    ensures ParseDML("UPDATE " + (schema + "." + table) + " SET " + rest) == UNPARSEABLE
  {
    DottedText(schema, table);
    QualifiedIsInvalid(schema + "." + table);
    DottedHead(schema + "." + table, rest);
    InvalidTableIsRefused("UPDATE " + (schema + "." + table) + " SET " + rest, schema + "." + table, StripComments(rest));
  }

  lemma DottedHead(t: string, rest: string)
    requires IsTableText(t) && '-' !in t && '/' !in t
    requires rest != "" && !IsSpace(rest[0]) && rest[0] != '-' && rest[0] != '/'
    ensures MatchUpdateHead(StripComments("UPDATE " + t + " SET " + rest)) == Head(t, StripComments(rest))
  {
    HeadCharStays(rest);
    StripBehind("UPDATE " + t + " SET ", rest);
    UpdateHead(t, StripComments(rest));
  }

  lemma InvalidTableIsRefused(text: string, t: string, body: string)
    requires MatchUpdateHead(StripComments(text)) == Head(t, body) && !ValidTable(UnquoteIdent(t))
    ensures ParseDML(text) == UNPARSEABLE
  {
  }

  lemma DottedDeleteIsRefused(schema: string, table: string, body: string)
    requires IsWord(schema) && IsWord(table)
    requires body == "" || (body[0] == ' ' && |body| > 1 && !IsSpace(body[1]) && body[1] != '-' && body[1] != '/')
    ensures ParseDML("DELETE FROM " + (schema + "." + table) + body) == UNPARSEABLE
  {
    var t := schema + "." + table;
    DottedText(schema, table);
    QualifiedIsInvalid(t);
    StripBehind("DELETE FROM " + t, body);
    if body != "" {
      assert body == " " + body[1..];
      HeadCharStays(body[1..]);
      StripBehind(" ", body[1..]);
    }
    DeleteHead(t, StripComments(body));
  }

  lemma DottedText(schema: string, table: string)
    requires IsWord(schema) && IsWord(table)
    ensures var t := schema + "." + table; IsTableText(t) && Qualified(t) && '-' !in t && '/' !in t
  {
    var t, n := schema + "." + table, |schema|;
    WordHasNoMark(schema);
    WordHasNoMark(table);
    assert IsWordByte(t[0]) && t[n] == '.' && t[n + 1] == table[0];
  }

  lemma {:induction false} LeftKeeps(t: string, i: nat, m: nat)
    requires i < m < |t| && IsWordByte(t[i])
    ensures var u := TrimQuotesLeft(t); |u| <= |t| && |t| - |u| <= i && u == t[|t| - |u|..]
    decreases |t|
  {
    if IsQuoteMark(t[0]) {
      LeftKeeps(t[1..], i - 1, m - 1);
      var u := TrimQuotesLeft(t);
      assert t[1..][|t| - 1 - |u|..] == t[|t| - |u|..];
    }
  }

  lemma {:induction false} RightKeeps(t: string, m: nat, j: nat)
    requires m < j < |t| && IsWordByte(t[j])
    ensures t[m] in TrimQuotesRight(t)
    decreases |t|
  {
    if IsQuoteMark(t[|t| - 1]) { RightKeeps(t[..|t| - 1], m, j); }
  }
}
