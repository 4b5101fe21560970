/**
 ParseDML undoes printing: a single-table UPDATE or DELETE written out as text is read back as the
 same verb, table and predicate. setColumns looks at parentheses and commas without regard to
 literals, so the SET columns come back under conditions that SetColumnsRoundTrip makes exact.
 */
module ParserRoundTrip {
  import opened Text
  import opened Scanner
  import opened Parser
  import opened CommentStripper
  import opened WhereClause

  datatype Assignment = Assignment(col: string, value: string)
  /** A row filter and the ORDER BY / LIMIT tail behind it ("" for none). */
  datatype Filter = Filter(predicate_: string, tail: string)
  /** What follows the assignments of an UPDATE without WHERE counts as part of its last value. */
  datatype Dml =
    | Update(table: string, sets: seq<Assignment>, filter: Option<Filter>)
    | Delete(table: string, rows: Filter)
    | DeleteAll(table: string, tail: string)

  function FilterOf(d: Dml): Option<Filter> {
    match d
    case Update(_, _, filter) => filter
    case Delete(_, rows) => Some(rows)
    case DeleteAll(_, _) => None
  }

  function PrintAssignment(a: Assignment): string {
    a.col + " = " + a.value
  }

  function PrintSets(sets: seq<Assignment>): string
    requires sets != []
  {
    if |sets| == 1 then PrintAssignment(sets[0])
    else PrintAssignment(sets[0]) + "," + (" " + PrintSets(sets[1..]))
  }

  function PrintWithTail(f: Filter): string {
    if f.tail == "" then f.predicate_ else f.predicate_ + " " + f.tail
  }

  function PrintFilter(f: Filter): string {
    "WHERE" + (" " + PrintWithTail(f))
  }

  function Print(d: Dml): string
    requires d.Update? ==> d.sets != []
  {
    match d
    case Update(table, sets, None) => "UPDATE " + table + " SET " + PrintSets(sets)
    case Update(table, sets, Some(f)) => "UPDATE " + table + " SET " + ((PrintSets(sets) + " ") + PrintFilter(f))
    case Delete(table, f) => "DELETE FROM " + table + (" " + PrintFilter(f))
    case DeleteAll(table, tail) => "DELETE FROM " + table + (if tail == "" then "" else " " + tail)
  }

  // ------------------------------------------------------------- WHERE clause

  predicate StartsTail(tail: string) {
    KeywordAt(tail, "ORDER BY", 0) || KeywordAt(tail, "LIMIT", 0)
  }

  /** The predicate closes its literals and parentheses and has no top-level clause word of its own. */
  ghost predicate FilterOk(f: Filter) {
    && f.predicate_ != "" && Trimmed(f.predicate_) && Trimmed(f.tail)
    && TopLevel(f.predicate_, |f.predicate_|)
    && NoKeyword(f.predicate_, "WHERE") && NoTail(f.predicate_)
    && (f.tail != "" ==> StartsTail(f.tail) && NoKeyword(f.tail, "WHERE"))
  }

  /** A keyword cannot straddle the blank between predicate and tail. */
  lemma KeywordInJoined(a: string, b: string, keyword: string, i: nat)
    requires TopLevel(a, |a|) && IsKeyword(keyword)
    requires KeywordAt(a + " " + b, keyword, i)
    requires forall j :: 0 <= j < |keyword| ==> i + j == |a| ==> UpperChar(keyword[j]) != ' '
    ensures KeywordAt(a, keyword, i) || (i > |a| && KeywordAt(b, keyword, i - |a| - 1))
  {
    var s := a + " " + b;
    var n, m := |a|, |keyword|;
    CutPoints(a, " ", b);
    assert s[n] == ' ';
    assert TopLevel(s, n) by { SliceScan(s, 0, n, n); }
    LetterOf(s, keyword, i, n - i);
    if i < n {
      SliceKeyword(s, 0, n, keyword, i);
    } else {
      assert TopLevel(s, n + 1) by { assert IsSpace(s[n]); BlankRun(s, n, n + 1); }
      SliceKeyword(s, n + 1, |s|, keyword, i - n - 1);
    }
  }

  lemma JoinedKeyword(a: string, b: string, keyword: string, i: nat)
    requires TopLevel(a, |a|) && IsKeyword(keyword) && KeywordAt(b, keyword, i)
    ensures KeywordAt(a + " " + b, keyword, |a| + 1 + i)
  {
    var s := a + " " + b;
    var n := |a|;
    CutPoints(a, " ", b);
    assert s[n] == ' ';
    assert TopLevel(s, n) by { SliceScan(s, 0, n, n); }
    assert TopLevel(s, n + 1) by { assert IsSpace(s[n]); BlankRun(s, n, n + 1); }
    SliceKeyword(s, n + 1, |s|, keyword, i);
  }

  lemma NoWhereInside(f: Filter)
    requires FilterOk(f)
    ensures NoKeyword(PrintWithTail(f), "WHERE")
  {
    if f.tail != "" {
      forall i: nat ensures !KeywordAt(PrintWithTail(f), "WHERE", i) {
        if KeywordAt(PrintWithTail(f), "WHERE", i) { KeywordInJoined(f.predicate_, f.tail, "WHERE", i); }
      }
    }
  }

  /** On "predicate tail" the tail is found where it was printed. */
  lemma TailFound(f: Filter)
    requires FilterOk(f) && f.tail != ""
    ensures TailCut(PrintWithTail(f)) == |f.predicate_| + 1
  {
    var p, t := f.predicate_, PrintWithTail(f);
    if KeywordAt(f.tail, "ORDER BY", 0) {
      JoinedKeyword(p, f.tail, "ORDER BY", 0);
    } else {
      JoinedKeyword(p, f.tail, "LIMIT", 0);
    }
    TailCutBorder(t);
    NoEarlierTail(f, TailCut(t));
  }

  lemma TailDropped(f: Filter)
    requires FilterOk(f)
    ensures WithoutTail(PrintWithTail(f)) == f.predicate_
  {
    var p, t := f.predicate_, PrintWithTail(f);
    if f.tail == "" {
      WithoutTailFixed(p);
      TrimmedIsFixed(p);
    } else {
      TailFound(f);
      assert t[..|p| + 1] == "" + p + " ";
      TrimAround("", p, " ");
    }
  }

  lemma NoEarlierTail(f: Filter, i: nat)
    requires FilterOk(f) && f.tail != ""
    requires var t := PrintWithTail(f); KeywordAt(t, "ORDER BY", i) || KeywordAt(t, "LIMIT", i)
    ensures |f.predicate_| < i
  {
    var p, t := f.predicate_, PrintWithTail(f);
    if KeywordAt(t, "LIMIT", i) {
      KeywordInJoined(p, f.tail, "LIMIT", i);
    } else {
      assert UpperChar(t[i + 6]) == UpperChar("ORDER BY"[6]);
      assert i + 5 == |p| ==> t[i + 6] == f.tail[0];
      assert KeywordAt(f.tail, "ORDER BY", 0) ==> UpperChar(f.tail[0 + 0]) == UpperChar("ORDER BY"[0]);
      assert KeywordAt(f.tail, "LIMIT", 0) ==> UpperChar(f.tail[0 + 0]) == UpperChar("LIMIT"[0]);
      KeywordInJoined(p, f.tail, "ORDER BY", i);
    }
  }

  /** The last top-level WHERE of "before WHERE predicate tail" is the printed one. */
  lemma SplitPrinted(before: string, f: Filter)
    requires FilterOk(f)
    requires TopLevel(before, |before|) && (before == "" || !IsWordByte(before[|before| - 1]))
    ensures SplitWhere(before + PrintFilter(f)) == Split(before, f.predicate_, true)
  {
    var body, p := before + PrintFilter(f), |before|;
    WhereIsPrinted(before, f);
    SplitFindsWhere(body);
    var last := LastWhere(body);
    if p < last { LaterWhere(before, f, last); }
    SplitAtPrinted(before, f);
  }

  lemma SplitAtPrinted(before: string, f: Filter)
    requires FilterOk(f)
    ensures |before| + 5 <= |before + PrintFilter(f)|
    ensures SplitAt(before + PrintFilter(f), |before|) == Split(before, f.predicate_, true)
  {
    BehindWhere(before, f);
    TailDropped(f);
    WherePieces(before, "WHERE", PrintWithTail(f));
  }

  /** The pieces of "before WHERE rest". */
  lemma WherePieces(before: string, word: string, rest: string)
    ensures var (s, n) := (before + (word + (" " + rest)), |before| + |word|);
      && |s| == n + 1 + |rest| && s[n] == ' '
      && s[0..|before|] == before && s[..|before|] == before && s[|before|..n] == word
      && s[n..] == " " + rest && s[n + 1..|s|] == rest
  {
    var s, n := before + (word + (" " + rest)), |before| + |word|;
    assert s == (before + word) + (" " + rest);
  }

  lemma BehindWhere(before: string, f: Filter)
    requires FilterOk(f)
    ensures |before| + 5 <= |before + PrintFilter(f)|
    ensures TrimSpace((before + PrintFilter(f))[|before| + 5..]) == PrintWithTail(f)
  {
    var t := PrintWithTail(f);
    assert t[0] == f.predicate_[0] && t[|t| - 1] == if f.tail == "" then f.predicate_[|f.predicate_| - 1] else f.tail[|f.tail| - 1];
    TrimAround(" ", t, "");
    WherePieces(before, "WHERE", t);
    assert " " + t == " " + t + "";
  }

  lemma WhereIsPrinted(before: string, f: Filter)
    requires TopLevel(before, |before|) && (before == "" || !IsWordByte(before[|before| - 1]))
    ensures KeywordAt(before + PrintFilter(f), "WHERE", |before|)
  {
    var body, p := before + PrintFilter(f), |before|;
    WherePieces(before, "WHERE", PrintWithTail(f));
    SliceScan(body, 0, p, p);
    assert forall j :: 0 <= j < 5 ==> body[p..p + 5][j] == "WHERE"[j];
    assert forall j :: 0 <= j < 5 ==> body[p + j] == "WHERE"[j];
    assert p > 0 ==> body[p - 1] == before[p - 1];
  }

  lemma LaterWhere(before: string, f: Filter, last: nat)
    requires FilterOk(f)
    requires KeywordAt(before + PrintFilter(f), "WHERE", |before|)
    requires |before| < last
    ensures !KeywordAt(before + PrintFilter(f), "WHERE", last)
  {
    var body, p, t := before + PrintFilter(f), |before|, PrintWithTail(f);
    WherePieces(before, "WHERE", t);
    LetterOf(body, "WHERE", last, 0);
    if last < p + 5 {
      WordHoldsNoOther(body, p, last);
    } else if p + 5 < last {
      NoWhereInside(f);
      RestHoldsNoOther(body, p, last);
    }
  }

  lemma RestHoldsNoOther(s: string, p: nat, i: nat)
    requires KeywordAt(s, "WHERE", p) && p + 6 <= |s| && s[p + 5] == ' '
    requires NoKeyword(s[p + 6..|s|], "WHERE") && p + 6 <= i
    ensures !KeywordAt(s, "WHERE", i)
  {
    if i < |s| {
      AfterWhere(s, p);
      BlankRun(s, p + 5, p + 6);
      SliceKeyword(s, p + 6, |s|, "WHERE", i - p - 6);
    }
  }

  lemma WordHoldsNoOther(s: string, p: nat, i: nat)
    requires LettersAt(s, "WHERE", p) && p < i < p + 5
    ensures !LettersAt(s, "WHERE", i)
  {
    LetterOf(s, "WHERE", p, i - p);
    LetterOf(s, "WHERE", i, 0);
  }

  // -------------------------------------------------------------- SET columns

  /** Opening minus closing parentheses, literals not looked at. */
  function Balance(s: string): int {
    if s == "" then 0 else ParenStep(0, s[0]) + Balance(s[1..])
  }

  lemma {:induction false} CommaPartsJoin(a: string, b: string, depth: int)
    requires depth + Balance(a) == 0
    ensures CommaParts(a + "," + b, depth) == CommaParts(a, depth) + CommaParts(b, 0)
  {
    if a == "" {
      assert a + "," + b == "," + b && ("," + b)[1..] == b;
    } else {
      TailOfJoin(a, ",", b);
      var rest := CommaParts(a[1..], ParenStep(depth, a[0]));
      CommaPartsJoin(a[1..], b, ParenStep(depth, a[0]));
      PrependConcat([a[0]], rest, CommaParts(b, 0));
      assert [""] + (rest + CommaParts(b, 0)) == ([""] + rest) + CommaParts(b, 0);
    }
  }

  /** A prefix without commas and parentheses goes to the first piece. */
  lemma {:induction false} CommaPartsPrefix(prefix: string, s: string, depth: int)
    requires forall j :: 0 <= j < |prefix| ==> prefix[j] != ',' && prefix[j] != '(' && prefix[j] != ')'
    ensures CommaParts(prefix + s, depth) == Prepend(prefix, CommaParts(s, depth))
    ensures Balance(prefix + s) == Balance(s)
  {
    PrependTwice("", "", CommaParts(s, depth));
    if prefix == "" {
      assert prefix + s == s;
    } else {
      assert (prefix + s)[1..] == prefix[1..] + s;
      CommaPartsPrefix(prefix[1..], s, depth);
      PrependTwice([prefix[0]], prefix[1..], CommaParts(s, depth));
      assert [prefix[0]] + prefix[1..] == prefix;
    }
  }

  function AppendToLast(parts: seq<string>, more: string): (r: seq<string>)
    requires |parts| >= 1
    ensures |r| >= 1
  {
    parts[..|parts| - 1] + [parts[|parts| - 1] + more]
  }

  lemma PrependAppend(prefix: string, parts: seq<string>, more: string)
    requires |parts| >= 1
    ensures Prepend(prefix, AppendToLast(parts, more)) == AppendToLast(Prepend(prefix, parts), more)
  {
    if |parts| == 1 {
      assert prefix + (parts[0] + more) == (prefix + parts[0]) + more;
    }
  }

  /** Blanks behind the clause go to the last piece. */
  lemma {:induction false} CommaPartsBlank(s: string, depth: int)
    ensures CommaParts(s + " ", depth) == AppendToLast(CommaParts(s, depth), " ")
  {
    if s == "" {
      assert s + " " == " " && " "[1..] == "";
      assert CommaParts(" ", depth) == Prepend(" ", [""]) == [" " + ""];
      assert " " + "" == " " == "" + " ";
    } else {
      assert (s + " ")[1..] == s[1..] + " ";
      CommaPartsBlank(s[1..], ParenStep(depth, s[0]));
      PrependAppend([s[0]], CommaParts(s[1..], ParenStep(depth, s[0])), " ");
    }
  }

  lemma ColumnsIgnoreBlank(s: string)
    ensures ColumnsOf(s + " ") == ColumnsOf(s)
  {
    CommaPartsBlank(s, 0);
    var p := CommaParts(s, 0);
    var n := |p| - 1;
    assert p == p[..n] + [p[n]];
    PartColumnsSnoc(p[..n], p[n]);
    PartColumnsSnoc(p[..n], p[n] + " ");
    BlankBehindPart(p[n]);
  }

  lemma BlankBehindPart(part: string)
    ensures PartColumn(part + " ") == PartColumn(part)
  {
    var eq := IndexOf(part, '=');
    IndexOfPrefix(part, " ");
    assert eq < |part| ==> (part + " ")[..eq] == part[..eq];
  }

  lemma {:induction false} IndexOfAbsent(s: string)
    requires '=' !in s
    ensures IndexOf(s, '=') == |s|
  {
    if s != "" {
      assert s[0] in s;
      IndexOfAbsent(s[1..]);
    }
  }

  lemma {:induction false} IndexOfPrefix(s: string, more: string)
    requires '=' !in more
    ensures IndexOf(s + more, '=') == if IndexOf(s, '=') < |s| then IndexOf(s, '=') else |s + more|
  {
    if s == "" {
      assert s + more == more;
      IndexOfAbsent(more);
    } else {
      assert (s + more)[1..] == s[1..] + more;
      IndexOfPrefix(s[1..], more);
    }
  }

  lemma TrimWord(lead: string, name: string, more: string)
    requires IsWord(name) && Blank(lead) && Blank(more)
    ensures TrimSpace(lead + name + more) == name
  {
    assert IsWordByte(name[0]) && IsWordByte(name[|name| - 1]);
    TrimAround(lead, name, more);
  }

  lemma UnquoteWord(name: string)
    requires IsWord(name)
    ensures UnquoteIdent(name) == name
  {
    assert IsWordByte(name[0]) && IsWordByte(name[|name| - 1]);
    TrimmedIsFixed(name);
  }

  /** What the pieces of a value behind its first top-level comma would add to the column list. */
  function StrayColumns(value: string): seq<string> {
    PartColumns(CommaParts(value, 0)[1..])
  }

  /** No comma of the value outside raw parentheses is followed by a piece with '='. */
  predicate NoStray(sets: seq<Assignment>) {
    forall k :: 0 <= k < |sets| ==> StrayColumns(sets[k].value) == []
  }

  ghost predicate SetsOk(sets: seq<Assignment>) {
    forall k :: 0 <= k < |sets| ==> IsWord(sets[k].col)
  }

  /** Every comma between two assignments is met at raw paren depth 0: all values but the last are balanced. */
  predicate SeparatorsOpen(sets: seq<Assignment>) {
    |sets| > 1 ==> Balance(sets[0].value) == 0 && SeparatorsOpen(sets[1..])
  }

  function Columns(sets: seq<Assignment>): seq<string> {
    if sets == [] then [] else [sets[0].col] + Columns(sets[1..])
  }

  /** What may stand in front of an assignment. */
  ghost predicate IsLead(lead: string) {
    forall j :: 0 <= j < |lead| ==> lead[j] == ' '
  }

  /** The text up to and including the '=' of an assignment. */
  function Lhs(lead: string, name: string): string {
    (lead + name) + " = "
  }

  lemma LhsParts(lead: string, name: string)
    requires IsWord(name) && IsLead(lead)
    ensures forall j :: 0 <= j < |Lhs(lead, name)| ==>
      Lhs(lead, name)[j] != ',' && Lhs(lead, name)[j] != '(' && Lhs(lead, name)[j] != ')'
    ensures Lhs(lead, name) == ((lead + name) + " ") + "= "
  {
  }

  lemma PieceColumn(lead: string, name: string, rest: string)
    requires IsWord(name) && IsLead(lead)
    ensures PartColumn(Lhs(lead, name) + rest) == [name]
  {
    var piece, before := Lhs(lead, name) + rest, (lead + name) + " ";
    LhsParts(lead, name);
    Assoc(before, "= ", rest);
    IndexOfFirst(before, "= " + rest);
    OnePart(before, "= " + rest);
    TrimWord(lead, name, " ");
    UnquoteWord(name);
  }

  lemma OnePart(before: string, behind: string)
    requires behind != "" && IndexOf(before + behind, '=') == |before|
    ensures PartColumn(before + behind) == [UnquoteIdent(TrimSpace(before))]
  {
    assert (before + behind)[..|before|] == before;
  }

  /** One assignment yields its own column, then whatever its value adds. */
  lemma OneAssignment(lead: string, a: Assignment)
    requires IsLead(lead)
    requires IsWord(a.col)
    ensures ColumnsOf(lead + PrintAssignment(a)) == [a.col] + StrayColumns(a.value)
    ensures Balance(lead + PrintAssignment(a)) == Balance(a.value)
  {
    Assoc(a.col, " = ", a.value);
    Assoc(lead, a.col, " = " + a.value);
    Assoc(lead + a.col, " = ", a.value);
    assert lead + PrintAssignment(a) == Lhs(lead, a.col) + a.value;
    AssignmentColumns(Lhs(lead, a.col), a.value) by { LhsParts(lead, a.col); }
    PieceColumn(lead, a.col, CommaParts(a.value, 0)[0]);
  }

  lemma AssignmentColumns(lhs: string, value: string)
    requires forall j :: 0 <= j < |lhs| ==> lhs[j] != ',' && lhs[j] != '(' && lhs[j] != ')'
    ensures ColumnsOf(lhs + value) == PartColumn(lhs + CommaParts(value, 0)[0]) + StrayColumns(value)
    ensures Balance(lhs + value) == Balance(value)
  {
    CommaPartsPrefix(lhs, value, 0);
  }

  lemma {:induction false} IndexOfFirst(before: string, s: string)
    requires '=' !in before && s != "" && s[0] == '='
    ensures IndexOf(before + s, '=') == |before|
  {
    if before == "" {
      assert before + s == s;
    } else {
      assert (before + s)[1..] == before[1..] + s;
      IndexOfFirst(before[1..], s);
    }
  }

  lemma JoinedColumns(first: string, rest: string)
    requires Balance(first) == 0
    ensures ColumnsOf(first + "," + rest) == ColumnsOf(first) + ColumnsOf(rest)
  {
    CommaPartsJoin(first, rest, 0);
    PartColumnsConcat(CommaParts(first, 0), CommaParts(rest, 0));
  }

  lemma ClauseStep(lead: string, sets: seq<Assignment>)
    requires IsLead(lead)
    requires |sets| > 1 && SetsOk(sets) && Balance(sets[0].value) == 0
    ensures ColumnsOf(lead + PrintSets(sets)) ==
      [sets[0].col] + StrayColumns(sets[0].value) + ColumnsOf(" " + PrintSets(sets[1..]))
  {
    var first, rest := PrintAssignment(sets[0]), " " + PrintSets(sets[1..]);
    OneAssignment(lead, sets[0]);
    Assoc(first, ",", rest);
    Assoc(lead, first, "," + rest);
    Assoc(lead + first, ",", rest);
    JoinedColumns(lead + first, rest);
  }

  lemma NoStrayStep(sets: seq<Assignment>)
    requires sets != []
    ensures NoStray(sets) <==> StrayColumns(sets[0].value) == [] && NoStray(sets[1..])
  {
    var rest := sets[1..];
    assert forall k :: 0 <= k < |rest| ==> rest[k] == sets[k + 1];
    if NoStray(rest) && StrayColumns(sets[0].value) == [] {
      forall k | 0 <= k < |sets| ensures StrayColumns(sets[k].value) == [] {
        if k > 0 { assert rest[k - 1] == sets[k]; }
      }
    }
  }

  /** What a clause with open separators reports: each target followed by what its value adds. */
  function Reported(sets: seq<Assignment>): seq<string> {
    if sets == [] then [] else [sets[0].col] + StrayColumns(sets[0].value) + Reported(sets[1..])
  }

  lemma {:induction false} ClauseColumns(lead: string, sets: seq<Assignment>)
    requires IsLead(lead)
    requires sets != [] && SetsOk(sets) && SeparatorsOpen(sets)
    ensures ColumnsOf(lead + PrintSets(sets)) == Reported(sets)
    decreases |sets|
  {
    var rest := sets[1..];
    if rest == [] {
      OneAssignment(lead, sets[0]);
      assert Reported(rest) == [];
    } else {
      assert SetsOk(rest) by { assert forall k :: 0 <= k < |rest| ==> rest[k] == sets[k + 1]; }
      ClauseStep(lead, sets);
      ClauseColumns(" ", rest);
    }
  }

  lemma {:induction false} ReportedIffNoStray(sets: seq<Assignment>)
    ensures |Reported(sets)| >= |sets| == |Columns(sets)|
    ensures NoStray(sets) ==> Reported(sets) == Columns(sets)
    ensures |Reported(sets)| == |sets| ==> NoStray(sets)
  {
    if sets != [] {
      ReportedIffNoStray(sets[1..]);
      NoStrayStep(sets);
    }
  }

  lemma {:induction false} ReportedHasTargets(sets: seq<Assignment>)
    ensures forall k :: 0 <= k < |sets| ==> sets[k].col in Reported(sets)
  {
    if sets != [] {
      ReportedHasTargets(sets[1..]);
      assert forall k :: 0 < k < |sets| ==> sets[k] == sets[1..][k - 1];
    }
  }

  // ---- values without a comma

  predicate NoComma(sets: seq<Assignment>) {
    forall k :: 0 <= k < |sets| ==> ',' !in sets[k].value
  }

  /** The columns of the assignments that start at raw paren depth 0. */
  function OpenColumns(sets: seq<Assignment>, depth: int): (r: seq<string>)
    ensures |r| <= |sets|
  {
    if sets == [] then []
    else
      var later := OpenColumns(sets[1..], depth + Balance(sets[0].value));
      if depth == 0 then [sets[0].col] + later else later
  }

  /** A text without commas is one piece. */
  lemma {:induction false} OnePiece(t: string, depth: int)
    requires ',' !in t
    ensures CommaParts(t, depth) == [t]
  {
    if t != "" {
      assert t[0] in t && forall c :: c in t[1..] ==> c in t;
      OnePiece(t[1..], ParenStep(depth, t[0]));
      assert [t[0]] + t[1..] == t;
    }
  }

  /** The comma behind it splits exactly at depth 0. */
  lemma {:induction false} CommaBehind(t: string, rest: string, depth: int)
    requires ',' !in t
    ensures depth + Balance(t) == 0 ==> CommaParts(t + "," + rest, depth) == [t] + CommaParts(rest, 0)
    ensures depth + Balance(t) != 0 ==>
      CommaParts(t + "," + rest, depth) == Prepend(t + ",", CommaParts(rest, depth + Balance(t)))
  {
    if depth + Balance(t) == 0 {
      CommaPartsJoin(t, rest, depth);
      OnePiece(t, depth);
    } else if t == "" {
      assert t + "," + rest == "," + rest && ("," + rest)[1..] == rest && t + "," == ",";
    } else {
      TailOfJoin(t, ",", rest);
      assert t[0] in t && forall c :: c in t[1..] ==> c in t;
      CommaBehind(t[1..], rest, ParenStep(depth, t[0]));
      PrependTwice([t[0]], t[1..] + ",", CommaParts(rest, depth + Balance(t)));
      assert [t[0]] + (t[1..] + ",") == t + ",";
    }
  }

  /** Whatever the values are, the first piece of a clause names the first target. */
  lemma FirstPiece(lead: string, sets: seq<Assignment>, depth: int)
    requires IsLead(lead)
    requires sets != [] && IsWord(sets[0].col)
    ensures PartColumn(CommaParts(lead + PrintSets(sets), depth)[0]) == [sets[0].col]
  {
    var a := sets[0];
    var more := if |sets| == 1 then "" else "," + (" " + PrintSets(sets[1..]));
    var behind := a.value + more;
    Assoc(a.col, " = ", a.value);
    Assoc(lead + a.col, " = ", a.value);
    Assoc(lead, a.col, " = " + a.value);
    Assoc(Lhs(lead, a.col), a.value, more);
    Assoc(lead, PrintAssignment(a), more);
    assert PrintSets(sets) == PrintAssignment(a) + more;
    assert lead + PrintSets(sets) == Lhs(lead, a.col) + behind;
    LhsParts(lead, a.col);
    CommaPartsPrefix(Lhs(lead, a.col), behind, depth);
    PieceColumn(lead, a.col, CommaParts(behind, depth)[0]);
  }

  lemma FirstTargetReported(sets: seq<Assignment>)
    requires sets != [] && IsWord(sets[0].col)
    ensures ColumnsOf(PrintSets(sets)) != [] && ColumnsOf(PrintSets(sets))[0] == sets[0].col
  {
    assert "" + PrintSets(sets) == PrintSets(sets);
    FirstPiece("", sets, 0);
  }

  lemma AssignmentFree(lead: string, a: Assignment)
    requires IsLead(lead) && IsWord(a.col) && ',' !in a.value
    ensures ',' !in lead + PrintAssignment(a) && Balance(lead + PrintAssignment(a)) == Balance(a.value)
  {
    OneAssignment(lead, a);
    assert forall c :: c in a.col ==> IsWordByte(c);
  }

  /** The clause as its first assignment, a comma that may or may not split, and the rest. */
  lemma FirstSeparator(lead: string, sets: seq<Assignment>, depth: int)
    requires IsLead(lead)
    requires |sets| > 1 && IsWord(sets[0].col) && ',' !in sets[0].value
    ensures var (d, more) := (depth + Balance(sets[0].value), " " + PrintSets(sets[1..]));
      CommaParts(lead + PrintSets(sets), depth)[1..] ==
        if d == 0 then CommaParts(more, 0) else CommaParts(more, d)[1..]
  {
    var t, more := lead + PrintAssignment(sets[0]), " " + PrintSets(sets[1..]);
    AssignmentFree(lead, sets[0]);
    Assoc(PrintAssignment(sets[0]), ",", more);
    Assoc(lead, PrintAssignment(sets[0]), "," + more);
    Assoc(t, ",", more);
    CommaBehind(t, more, depth);
  }

  /** The pieces of a text behind its first one name these columns. */
  predicate LaterPieces(text: string, depth: int, cols: seq<string>) {
    PartColumns(CommaParts(text, depth)[1..]) == cols
  }

  lemma WithFirstPiece(lead: string, sets: seq<Assignment>, depth: int, cols: seq<string>)
    requires IsLead(lead) && sets != [] && IsWord(sets[0].col)
    requires LaterPieces(lead + PrintSets(sets), depth, cols)
    ensures PartColumns(CommaParts(lead + PrintSets(sets), depth)) == [sets[0].col] + cols
  {
    FirstPiece(lead, sets, depth);
  }

  lemma LaterStep(lead: string, sets: seq<Assignment>, depth: int, cols: seq<string>)
    requires IsLead(lead) && |sets| > 1 && SetsOk(sets) && ',' !in sets[0].value
    requires LaterPieces(" " + PrintSets(sets[1..]), depth + Balance(sets[0].value), cols)
    ensures depth + Balance(sets[0].value) == 0 ==> LaterPieces(lead + PrintSets(sets), depth, [sets[1..][0].col] + cols)
    ensures depth + Balance(sets[0].value) != 0 ==> LaterPieces(lead + PrintSets(sets), depth, cols)
  {
    FirstSeparator(lead, sets, depth);
    if depth + Balance(sets[0].value) == 0 { WithFirstPiece(" ", sets[1..], 0, cols); }
  }

  /** The pieces behind the first one name the assignments that start at depth 0, and no others. */
  predicate LaterAre(lead: string, sets: seq<Assignment>, depth: int)
    requires sets != []
  {
    LaterPieces(lead + PrintSets(sets), depth, OpenColumns(sets[1..], depth + Balance(sets[0].value)))
  }

  lemma OnlyAssignment(lead: string, sets: seq<Assignment>, depth: int)
    requires IsLead(lead) && |sets| == 1 && SetsOk(sets) && NoComma(sets)
    ensures LaterAre(lead, sets, depth)
  {
    AssignmentFree(lead, sets[0]);
    OnePiece(lead + PrintAssignment(sets[0]), depth);
    assert sets[1..] == [];
  }

  lemma TailIsOk(sets: seq<Assignment>)
    requires |sets| > 1 && SetsOk(sets) && NoComma(sets)
    ensures SetsOk(sets[1..]) && NoComma(sets[1..])
  {
    assert forall k :: 0 <= k < |sets[1..]| ==> sets[1..][k] == sets[k + 1];
  }

  lemma {:induction false} LaterColumns(lead: string, sets: seq<Assignment>, depth: int)
    requires IsLead(lead) && sets != [] && SetsOk(sets) && NoComma(sets)
    ensures LaterAre(lead, sets, depth)
    decreases |sets|
  {
    if |sets| == 1 {
      OnlyAssignment(lead, sets, depth);
    } else {
      TailIsOk(sets);
      LaterColumns(" ", sets[1..], depth + Balance(sets[0].value));
      OneMoreAssignment(lead, sets, depth);
    }
  }

  lemma OneMoreAssignment(lead: string, sets: seq<Assignment>, depth: int)
    requires IsLead(lead) && |sets| > 1 && SetsOk(sets) && NoComma(sets)
    requires LaterAre(" ", sets[1..], depth + Balance(sets[0].value))
    ensures LaterAre(lead, sets, depth)
  {
    var rest, d := sets[1..], depth + Balance(sets[0].value);
    LaterWith(lead, sets, depth, OpenColumns(rest[1..], d + Balance(rest[0].value)), OpenColumns(rest, d));
  }

  lemma LaterWith(lead: string, sets: seq<Assignment>, depth: int, before: seq<string>, later: seq<string>)
    requires IsLead(lead) && |sets| > 1 && SetsOk(sets) && ',' !in sets[0].value
    requires depth + Balance(sets[0].value) == 0 ==> later == [sets[1..][0].col] + before
    requires depth + Balance(sets[0].value) != 0 ==> later == before
    requires LaterPieces(" " + PrintSets(sets[1..]), depth + Balance(sets[0].value), before)
    ensures LaterPieces(lead + PrintSets(sets), depth, later)
  {
    LaterStep(lead, sets, depth, before);
  }

  lemma OpenStep(sets: seq<Assignment>, depth: int)
    requires sets != []
    ensures var later := OpenColumns(sets[1..], depth + Balance(sets[0].value));
      && (depth == 0 ==> OpenColumns(sets, depth) == [sets[0].col] + later)
      && (depth != 0 ==> OpenColumns(sets, depth) == later)
  {
  }

  /** With values free of commas setColumns reports exactly the assignments that start at raw paren depth 0. */
  lemma CommaFreeColumns(lead: string, sets: seq<Assignment>)
    requires IsLead(lead) && sets != [] && SetsOk(sets) && NoComma(sets)
    ensures ColumnsOf(lead + PrintSets(sets)) == OpenColumns(sets, 0)
  {
    LaterColumns(lead, sets, 0);
    OpenStep(sets, 0);
    WithFirstPiece(lead, sets, 0, OpenColumns(sets[1..], Balance(sets[0].value)));
  }

  lemma {:induction false} OpenColumnsAreAll(sets: seq<Assignment>)
    ensures OpenColumns(sets, 0) == Columns(sets) <==> SeparatorsOpen(sets)
    ensures |Columns(sets)| == |sets|
  {
    if |sets| > 1 {
      var rest, d := sets[1..], Balance(sets[0].value);
      OpenColumnsAreAll(rest);
      assert OpenColumns(sets, 0)[1..] == OpenColumns(rest, d);
      assert d != 0 ==> |OpenColumns(rest, d)| < |rest|;
    }
  }

  /**
   When setColumns reads the printed columns back. With every separator at raw paren depth 0: exactly
   if no value carries a stray assignment. With values free of commas: exactly if every separator is at
   raw paren depth 0.
   */
  lemma SetColumnsRoundTrip(sets: seq<Assignment>)
    requires sets != [] && SetsOk(sets)
    ensures SeparatorsOpen(sets) ==> (ColumnsOf(PrintSets(sets)) == Columns(sets) <==> NoStray(sets))
    ensures NoComma(sets) ==> (ColumnsOf(PrintSets(sets)) == Columns(sets) <==> SeparatorsOpen(sets))
  {
    assert "" + PrintSets(sets) == PrintSets(sets);
    if SeparatorsOpen(sets) {
      ClauseColumns("", sets);
      ReportedIffNoStray(sets);
    }
    if NoComma(sets) {
      CommaFreeColumns("", sets);
      OpenColumnsAreAll(sets);
    }
  }

  /** Two assignments whose first value ends in what looks like an assignment. */
  function Disguised(a: string, b: string, u: string, v: string, w: string): seq<Assignment> {
    [Assignment(a, u + "," + (" " + (b + " = " + v))), Assignment(b, w)]
  }

  /**
   Outside those two cases the list can be right by accident: a stray assignment stands in for the
   column that the same value hides. Here b is reported, but not because it is set.
   */
  lemma StrayHidesLoss(a: string, b: string, u: string, v: string, w: string)
    requires IsWord(a) && IsWord(b) && ',' !in u && ',' !in v && ',' !in w
    requires Balance(u) == 0 && Balance(v) != 0
    ensures var sets := Disguised(a, b, u, v, w);
      ColumnsOf(PrintSets(sets)) == Columns(sets) && !NoStray(sets) && !SeparatorsOpen(sets)
  {
    var sets := Disguised(a, b, u, v, w);
    assert sets[1..] == [Assignment(b, w)];
    assert Columns(sets) == [a] + Columns(sets[1..]);
    DisguisedColumns(a, b, u, v, w);
    DisguisedStray(a, b, u, v, w);
    DisguisedBalance(b, u, v);
    assert StrayColumns(sets[0].value) != [];
  }

  lemma DisguisedColumns(a: string, b: string, u: string, v: string, w: string)
    requires IsWord(a) && IsWord(b) && ',' !in u && ',' !in v && ',' !in w
    requires Balance(u) == 0 && Balance(v) != 0
    ensures ColumnsOf(PrintSets(Disguised(a, b, u, v, w))) == [a, b]
  {
    var inner := [Assignment(b, v), Assignment(b, w)];
    var first := Assignment(a, u);
    PrintedApart(a, b, u, v, w);
    AssignmentFree("", first);
    OneAssignment("", first);
    assert "" + PrintAssignment(first) == PrintAssignment(first);
    OnePiece(u, 0);
    JoinedColumns(PrintAssignment(first), " " + PrintSets(inner));
    CommaFreeColumns(" ", inner);
    assert inner[1..] == [Assignment(b, w)] && inner[1..][1..] == [];
  }

  lemma DisguisedStray(a: string, b: string, u: string, v: string, w: string)
    requires IsWord(b) && ',' !in u && ',' !in v && Balance(u) == 0
    ensures StrayColumns(Disguised(a, b, u, v, w)[0].value) == [b]
  {
    var one := [Assignment(b, v)];
    CommaBehind(u, " " + PrintSets(one), 0);
    CommaFreeColumns(" ", one);
    assert one[1..] == [];
  }

  lemma DisguisedBalance(b: string, u: string, v: string)
    requires IsWord(b) && ',' !in v
    ensures Balance(u + "," + (" " + (b + " = " + v))) == Balance(u) + Balance(v)
  {
    AssignmentFree(" ", Assignment(b, v));
    BalanceJoin(u + ",", " " + (b + " = " + v));
    BalanceJoin(u, ",");
    assert ","[1..] == "";
  }

  lemma {:induction false} BalanceJoin(a: string, b: string)
    ensures Balance(a + b) == Balance(a) + Balance(b)
  {
    if a == "" {
      assert a + b == b;
    } else {
      assert (a + b)[1..] == a[1..] + b;
      BalanceJoin(a[1..], b);
      assert ParenStep(0, a[0]) + Balance(a[1..]) == Balance(a);
    }
  }

  lemma PrintedApart(a: string, b: string, u: string, v: string, w: string)
    ensures PrintSets(Disguised(a, b, u, v, w)) ==
      PrintAssignment(Assignment(a, u)) + "," + (" " + PrintSets([Assignment(b, v), Assignment(b, w)]))
  {
    var sets, inner := Disguised(a, b, u, v, w), [Assignment(b, v), Assignment(b, w)];
    var head, mid := a + " = ", b + " = " + v;
    var tail := "," + (" " + PrintSets([Assignment(b, w)]));
    assert sets[1..] == [Assignment(b, w)] == inner[1..];
    assert PrintSets(inner) == mid + tail;
    assert PrintSets(sets) == (head + (u + "," + (" " + mid))) + tail;
    assert (head + (u + "," + (" " + mid))) + tail == head + u + "," + (" " + (mid + tail));
  }

  // ------------------------------------------------------------------- heads

  /** All bytes of the class from a up to b. */
  predicate AllIn(cls: char -> bool, s: string, a: nat, b: nat) {
    a <= b <= |s| && forall j :: a <= j < b ==> cls(s[j])
  }

  /**
   An UPDATE head in any letter case and with any blanks between its words: UPDATE at verb, the table from table up
   to tableEnd, SET at set_, the rest from body on.
   */
  predicate UpdateHeadIs(q: string, verb: nat, table: nat, tableEnd: nat, set_: nat, body: nat) {
    && AllIn(IsPatternSpace, q, 0, verb) && LettersAt(q, "UPDATE", verb)
    && verb + 6 < table && AllIn(IsPatternSpace, q, verb + 6, table)
    && table < tableEnd && AllIn(IsTableByte, q, table, tableEnd)
    && tableEnd < set_ && AllIn(IsPatternSpace, q, tableEnd, set_) && LettersAt(q, "SET", set_)
    && set_ + 3 < body && AllIn(IsPatternSpace, q, set_ + 3, body) && body < |q| && !IsPatternSpace(q[body])
  }

  lemma UpdateHeadAt(q: string, verb: nat, table: nat, tableEnd: nat, set_: nat, body: nat)
    requires UpdateHeadIs(q, verb, table, tableEnd, set_, body)
    ensures MatchUpdateHead(q) == Head(q[table..tableEnd], q[body..])
  {
    LetterOf(q, "UPDATE", verb, 0);
    LetterOf(q, "SET", set_, 0);
    RunIs(IsPatternSpace, q, 0, verb);
    RunIs(IsPatternSpace, q, verb + 6, table);
    RunIs(IsTableByte, q, table, tableEnd);
    RunIs(IsPatternSpace, q, tableEnd, set_);
    RunIs(IsPatternSpace, q, set_ + 3, body);
  }

  predicate IsTableText(t: string) {
    t != "" && forall k :: 0 <= k < |t| ==> IsTableByte(t[k])
  }

  lemma UpdateHead(t: string, body: string)
    requires IsTableText(t) && body != "" && !IsSpace(body[0])
    ensures MatchUpdateHead("UPDATE " + t + " SET " + body) == Head(t, body)
  {
    var q, n := "UPDATE " + t + " SET " + body, |t|;
    UpdateHeadParts(q, t, body);
    assert q[7..7 + n] == t && q[12 + n..] == body;
    UpdateHeadAt(q, 0, 7, 7 + n, 8 + n, 12 + n);
  }

  lemma UpdateHeadParts(q: string, t: string, body: string)
    requires IsTableText(t) && body != "" && !IsSpace(body[0]) && q == "UPDATE " + t + " SET " + body
    ensures UpdateHeadIs(q, 0, 7, 7 + |t|, 8 + |t|, 12 + |t|)
  {
    var u, set_, n := "UPDATE ", " SET ", |t|;
    assert forall j :: 7 <= j < 7 + n ==> q[j] == t[j - 7];
    assert forall j :: 0 <= j < 7 ==> q[j] == u[j];
    assert forall j :: 0 <= j < 5 ==> q[7 + n + j] == set_[j];
    assert q[7 + n + 0] == ' ' && q[7 + n + 1] == 'S' && q[7 + n + 2] == 'E' && q[7 + n + 3] == 'T' && q[7 + n + 4] == ' ';
    assert q[12 + n] == body[0];
  }

  /** A DELETE head in any letter case and with any blanks; behind the table blanks or the end of the text. */
  predicate DeleteHeadIs(q: string, verb: nat, from: nat, table: nat, tableEnd: nat, body: nat) {
    && AllIn(IsPatternSpace, q, 0, verb) && LettersAt(q, "DELETE", verb)
    && verb + 6 < from && AllIn(IsPatternSpace, q, verb + 6, from) && LettersAt(q, "FROM", from)
    && from + 4 < table && AllIn(IsPatternSpace, q, from + 4, table)
    && table < tableEnd && AllIn(IsTableByte, q, table, tableEnd)
    && AllIn(IsPatternSpace, q, tableEnd, body)
    && (body < |q| ==> !IsPatternSpace(q[body])) && (tableEnd < |q| ==> !IsTableByte(q[tableEnd]))
  }

  lemma NotAnUpdate(q: string, verb: nat)
    requires AllIn(IsPatternSpace, q, 0, verb) && LettersAt(q, "DELETE", verb)
    ensures MatchUpdateHead(q) == NoHead
  {
    LetterOf(q, "DELETE", verb, 0);
    LetterOf(q, "UPDATE", verb, 0);
    RunIs(IsPatternSpace, q, 0, verb);
  }

  lemma DeleteHeadAt(q: string, verb: nat, from: nat, table: nat, tableEnd: nat, body: nat)
    requires DeleteHeadIs(q, verb, from, table, tableEnd, body)
    ensures MatchUpdateHead(q) == NoHead
    ensures MatchDeleteHead(q) == Head(q[table..tableEnd], q[body..])
  {
    NotAnUpdate(q, verb);
    DeleteHeadFound(q, verb, from, table, tableEnd, body);
  }

  lemma DeleteHeadFound(q: string, verb: nat, from: nat, table: nat, tableEnd: nat, body: nat)
    requires DeleteHeadIs(q, verb, from, table, tableEnd, body)
    ensures MatchDeleteHead(q) == Head(q[table..tableEnd], q[body..])
  {
    LetterOf(q, "DELETE", verb, 0);
    RunIs(IsPatternSpace, q, 0, verb);
    FromFound(q, verb + 6, from, table, tableEnd, body);
  }

  lemma FromFound(q: string, i: nat, from: nat, table: nat, tableEnd: nat, body: nat)
    requires i < from && AllIn(IsPatternSpace, q, i, from) && LettersAt(q, "FROM", from)
    requires from + 4 < table && AllIn(IsPatternSpace, q, from + 4, table)
    requires table < tableEnd && AllIn(IsTableByte, q, table, tableEnd) && AllIn(IsPatternSpace, q, tableEnd, body)
    requires (body < |q| ==> !IsPatternSpace(q[body])) && (tableEnd < |q| ==> !IsTableByte(q[tableEnd]))
    ensures FromHead(q, i) == Head(q[table..tableEnd], q[body..])
  {
    FromIsAt(q, i, from);
    TableFound(q, from + 4, table, tableEnd, body);
  }

  lemma FromIsAt(q: string, i: nat, from: nat)
    requires i < from && AllIn(IsPatternSpace, q, i, from) && LettersAt(q, "FROM", from)
    ensures FromHead(q, i) == TableHead(q, from + 4)
  {
    LetterOf(q, "FROM", from, 0);
    RunIs(IsPatternSpace, q, i, from);
  }

  lemma TableFound(q: string, i: nat, table: nat, tableEnd: nat, body: nat)
    requires i < table && AllIn(IsPatternSpace, q, i, table) && table < tableEnd && AllIn(IsTableByte, q, table, tableEnd)
    requires AllIn(IsPatternSpace, q, tableEnd, body)
    requires (body < |q| ==> !IsPatternSpace(q[body])) && (tableEnd < |q| ==> !IsTableByte(q[tableEnd]))
    ensures TableHead(q, i) == Head(q[table..tableEnd], q[body..])
  {
    assert IsTableByte(q[table]);
    RunIs(IsPatternSpace, q, i, table);
    RunIs(IsTableByte, q, table, tableEnd);
    RunIs(IsPatternSpace, q, tableEnd, body);
  }

  lemma DeleteHead(t: string, body: string)
    requires IsTableText(t) && (body == "" || (body[0] == ' ' && |body| > 1 && !IsSpace(body[1])))
    ensures MatchUpdateHead("DELETE FROM " + t + body) == NoHead
    ensures MatchDeleteHead("DELETE FROM " + t + body) == Head(t, if body == "" then "" else body[1..])
  {
    var head := "DELETE FROM ";
    var q, n := head + t + body, |t|;
    assert q[12..12 + n] == t && q[12 + n..] == body;
    assert forall j :: 0 <= j < 12 ==> q[j] == head[j];
    assert forall j :: 12 <= j < 12 + n ==> q[j] == t[j - 12];
    if body != "" {
      assert q[12 + n] == body[0] && q[13 + n] == body[1];
      assert q[13 + n..] == body[1..];
    }
    DeleteHeadAt(q, 0, 7, 12, 12 + n, if body == "" then 12 + n else 13 + n);
  }

  // ------------------------------------------------------------ the round trip

  /** The statement a reader is meant to see; each clause excludes input ParseDML turns away or reads differently. */
  ghost predicate WellFormed(d: Dml) {
    && IsWord(d.table)
    && (FilterOf(d).Some? ==> FilterOk(FilterOf(d).value))
    && (d.Update? ==>
        && d.sets != [] && SetsOk(d.sets)
        && TopLevel(PrintSets(d.sets), |PrintSets(d.sets)|)
        && (d.filter.None? ==> NoKeyword(PrintSets(d.sets), "WHERE")))
    && (d.DeleteAll? && d.tail != "" ==> StartsTail(d.tail) && NoKeyword(d.tail, "WHERE"))
  }

  /** ParseDML does not refuse the text up front: without its comments it holds no second statement and no join. */
  ghost predicate Acceptable(text: string) {
    var q := StripComments(text);
    !HasSecondStatement(q) && !Occurs(" JOIN ", ToUpper(q)) && !Occurs(" USING ", ToUpper(q))
  }

  /** The text is the printed statement once its comments are stripped; the printed text itself is, if it holds none. */
  predicate Spells(text: string, d: Dml)
    requires d.Update? ==> d.sets != []
  {
    StripComments(text) == Print(d)
  }

  function Expected(d: Dml): ParsedDML {
    var f := FilterOf(d);
    ParsedDML(if d.Update? then "UPDATE" else "DELETE", d.table, if f.Some? then f.value.predicate_ else "", f.Some?,
              if d.Update? then Columns(d.sets) else [], true)
  }

  lemma TableIsItself(t: string)
    requires IsWord(t)
    ensures UnquoteIdent(t) == t && ValidTable(t)
  {
    UnquoteWord(t);
  }

  lemma SplitNothing(body: string)
    requires NoKeyword(body, "WHERE")
    ensures SplitWhere(body) == Split(body, "", false)
  {
    SplitFindsWhere(body);
  }

  lemma SetsStartPlain(sets: seq<Assignment>)
    requires sets != [] && SetsOk(sets)
    ensures PrintSets(sets) != "" && IsWordByte(PrintSets(sets)[0])
  {
    assert IsWordByte(sets[0].col[0]);
    assert PrintSets(sets)[0] == sets[0].col[0];
  }

  lemma ClosedBeforeBlank(s: string)
    requires TopLevel(s, |s|)
    ensures TopLevel(s + " ", |s + " "|) && !IsWordByte((s + " ")[|s|])
  {
    var t := s + " ";
    assert t[0..|s|] == s && IsSpace(t[|s|]);
    SliceScan(t, 0, |s|, |s|);
    BlankRun(t, |s|, |s| + 1);
  }

  /** What ParseDML makes of a text that is an UPDATE head and a body, once its comments are gone. */
  lemma UpdateRead(text: string, table: string, body: string)
    requires StripComments(text) == "UPDATE " + table + " SET " + body && Acceptable(text)
    requires IsWord(table) && body != "" && !IsSpace(body[0])
    ensures var s := SplitWhere(body);
      ParseDML(text) == ParsedDML("UPDATE", table, s.where, s.hasWhere, ColumnsOf(s.before), true)
  {
    TableIsItself(table);
    UpdateHead(table, body);
  }

  lemma UpdateBody(d: Dml) returns (body: string)
    requires d.Update? && WellFormed(d)
    ensures Print(d) == "UPDATE " + d.table + " SET " + body
    ensures body != "" && !IsSpace(body[0])
    ensures SplitWhere(body).where == Expected(d).whereClause && SplitWhere(body).hasWhere == d.filter.Some?
    ensures ColumnsOf(SplitWhere(body).before) == ColumnsOf(PrintSets(d.sets))
  {
    var s := PrintSets(d.sets);
    SetsStartPlain(d.sets);
    match d.filter
    case None =>
      body := s;
      SplitNothing(s);
    case Some(f) =>
      var before := s + " ";
      body := before + PrintFilter(f);
      ClosedBeforeBlank(s);
      SplitPrinted(before, f);
      ColumnsIgnoreBlank(s);
  }

  lemma UpdateRoundTrip(text: string, d: Dml)
    requires d.Update? && WellFormed(d) && Spells(text, d) && Acceptable(text)
    ensures ParseDML(text) == Expected(d).(setCols := ColumnsOf(PrintSets(d.sets)))
  {
    var body := UpdateBody(d);
    UpdateRead(text, d.table, body);
  }

  lemma FilterBody(f: Filter)
    requires FilterOk(f)
    ensures SplitWhere(PrintFilter(f)) == Split("", f.predicate_, true)
    ensures |PrintFilter(f)| > 0 && PrintFilter(f)[0] == 'W'
  {
    assert PrintFilter(f) == "" + PrintFilter(f);
    SplitPrinted("", f);
  }

  /** What ParseDML makes of a text that is a DELETE head and a body, once its comments are gone. */
  lemma DeleteRead(text: string, table: string, body: string)
    requires StripComments(text) == "DELETE FROM " + table + body && Acceptable(text)
    requires IsWord(table) && (body == "" || (body[0] == ' ' && |body| > 1 && !IsSpace(body[1])))
    ensures var s := SplitWhere(if body == "" then "" else body[1..]);
      ParseDML(text) == ParsedDML("DELETE", table, s.where, s.hasWhere, [], true)
  {
    TableIsItself(table);
    DeleteHead(table, body);
  }

  lemma TailStartsPlain(tail: string)
    ensures StartsTail(tail) ==> tail != "" && !IsSpace(tail[0])
  {
    LetterOf(tail, "ORDER BY", 0, 0);
    LetterOf(tail, "LIMIT", 0, 0);
  }

  lemma DeleteRoundTrip(text: string, d: Dml)
    requires !d.Update? && WellFormed(d) && Spells(text, d) && Acceptable(text)
    ensures ParseDML(text) == Expected(d)
  {
    match d
    case Delete(table, f) =>
      FilterBody(f);
      var body := " " + PrintFilter(f);
      assert body[1..] == PrintFilter(f);
      DeleteRead(text, table, body);
    case DeleteAll(table, tail) =>
      var body := if tail == "" then "" else " " + tail;
      SplitNothing(tail);
      TailStartsPlain(tail);
      assert tail != "" ==> body[1..] == tail;
      DeleteRead(text, table, body);
  }

  /**
   ParseDML undoes Print, whatever comments are added. A DELETE always comes back as it was, and an UPDATE
   always up to its SET columns; these come back as setColumns reads them (see SetColumnsRoundTrip).
   */
  lemma ParseUndoesPrint(text: string, d: Dml)
    requires WellFormed(d) && Spells(text, d) && Acceptable(text)
    ensures !d.Update? ==> ParseDML(text) == Expected(d)
    ensures ParseDML(text).(setCols := []) == Expected(d).(setCols := [])
    ensures d.Update? && SeparatorsOpen(d.sets) ==> (ParseDML(text) == Expected(d) <==> NoStray(d.sets))
    ensures d.Update? && NoComma(d.sets) ==> (ParseDML(text) == Expected(d) <==> SeparatorsOpen(d.sets))
  {
    if d.Update? {
      UpdateRoundTrip(text, d);
      SetColumnsRoundTrip(d.sets);
    } else {
      DeleteRoundTrip(text, d);
    }
  }

  // ---------------------------------------------------- values that mislead setColumns

  /** All literals and parentheses are closed at the end. */
  ghost predicate Closed(s: string) {
    TopLevel(s, |s|)
  }

  lemma StrayInLiteral()
    ensures Balance("',='") == 0 && StrayColumns("',='") != []
  {
    assert "'"[1..] == "" && "='"[1..] == "'" && "'" + "," + "='" == "',='";
    assert "',='"[1..] == ",='" && ",='"[1..] == "='";
    CommaPartsJoin("'", "='", 0);
    assert CommaParts("'", 0) == Prepend("'", [""]) && |CommaParts("'", 0)| == 1;
    var b := CommaParts("='", 0);
    assert b[0] == ['='] + CommaParts("'", 0)[0];
    assert CommaParts("',='", 0)[1..] == b;
  }

  lemma LiteralIsClosed()
    ensures TopLevel("n = ',='", 8)
  {
    var s := "n = ',='";
    PlainRun(s, 0, 4);
    assert InLiteral(s, 5) && Depth(s, 5) == 0;
    assert InLiteral(s, 6) && Depth(s, 6) == 0;
    assert InLiteral(s, 7) && Depth(s, 7) == 0;
  }

  /**
   A comma and '=' inside one literal are enough to report a column that is not set, although the
   scanner sees a well-closed clause.
   */
  lemma CommaInLiteralAddsColumn()
    ensures var sets := [Assignment("n", "',='")];
      && SetsOk(sets) && SeparatorsOpen(sets) && TopLevel(PrintSets(sets), |PrintSets(sets)|)
      && ColumnsOf(PrintSets(sets)) != Columns(sets)
  {
    var sets := [Assignment("n", "',='")];
    StrayInLiteral();
    LiteralIsClosed();
    assert PrintSets(sets) == "n = ',='";
    assert !NoStray(sets) by { assert StrayColumns(sets[0].value) != []; }
    SetColumnsRoundTrip(sets);
  }

  lemma ParenIsClosed()
    ensures TopLevel("a = '(', b = 2", 14)
  {
    var s := "a = '(', b = 2";
    PlainRun(s, 0, 4);
    assert InLiteral(s, 5) && Depth(s, 5) == 0;
    assert InLiteral(s, 6) && Depth(s, 6) == 0;
    PlainRun(s, 7, 14);
  }

  lemma ParenBalances()
    ensures Balance("'('") == 1
    ensures StrayColumns("'('") == [] && StrayColumns("2") == []
  {
    assert "'('"[1..] == "('" && "('"[1..] == "'" && "'"[1..] == "";
    assert Balance("'") == 0 && Balance("('") == 1;
    OnePiece("'('", 0);
    OnePiece("2", 0);
  }

  /** A paren inside one literal is enough to lose a column that is set, in a clause that closes well and has no stray assignment. */
  lemma ParenInLiteralLosesColumn()
    ensures var sets := [Assignment("a", "'('"), Assignment("b", "2")];
      && SetsOk(sets) && NoStray(sets) && Closed(PrintSets(sets))
      && ColumnsOf(PrintSets(sets)) == ["a"]
  {
    var sets := [Assignment("a", "'('"), Assignment("b", "2")];
    ParenIsClosed();
    ParenSets(sets);
    CommaFreeColumns("", sets);
  }

  lemma ParenSets(sets: seq<Assignment>)
    requires sets == [Assignment("a", "'('"), Assignment("b", "2")]
    ensures PrintSets(sets) == "a = '(', b = 2" == "" + PrintSets(sets)
    ensures SetsOk(sets) && NoStray(sets) && NoComma(sets) && OpenColumns(sets, 0) == ["a"]
  {
    ParenBalances();
    assert sets[1..] == [Assignment("b", "2")] && sets[1..][1..] == [];
  }
}
