/**
 ParseDML and its parts (engine/internal/analyzer/parser.go): comments are dropped, a second
 statement or a join is refused, one of two head patterns is matched, and the body is split at
 its last top-level WHERE.
 */
module Parser {
  import opened Text
  import opened Scanner
  import opened CommentStripper

  datatype ParsedDML = ParsedDML(
    verb: string, table: string, whereClause: string, hasWhere: bool, setCols: seq<string>, parseable: bool)

  const UNPARSEABLE := ParsedDML("", "", "", false, [], false)

  // ---------------------------------------------------------- identifiers

  predicate IsQuoteMark(c: char) {
    c == '`' || c == '"' || c == '[' || c == ']'
  }

  function TrimQuotesLeft(s: string): string {
    if s != "" && IsQuoteMark(s[0]) then TrimQuotesLeft(s[1..]) else s
  }

  function TrimQuotesRight(s: string): string {
    if s != "" && IsQuoteMark(s[|s| - 1]) then TrimQuotesRight(s[..|s| - 1]) else s
  }

  /** unquoteIdent: blanks, then any run of quote marks on either side. */
  function UnquoteIdent(s: string): string {
    TrimQuotesRight(TrimQuotesLeft(TrimSpace(s)))
  }

  predicate ValidTable(t: string) {
    t != "" && '.' !in t && ',' !in t
  }

  predicate IsWord(s: string) {
    s != "" && forall i :: 0 <= i < |s| ==> IsWordByte(s[i])
  }

  // ---------------------------------------------------------- head patterns

  /** The class \s of the head patterns, which has no vertical tab. */
  predicate IsPatternSpace(c: char) {
    c == ' ' || c == '\t' || c == '\n' || c == '\r' || c == '\U{0C}'
  }

  predicate IsTableByte(c: char) {
    IsWordByte(c) || IsQuoteMark(c) || c == '.'
  }

  /** End of the longest run from i of bytes in the class. */
  function Run(cls: char -> bool, s: string, i: nat): (r: nat)
    requires i <= |s|
    ensures i <= r <= |s|
    decreases |s| - i
  {
    if i < |s| && cls(s[i]) then Run(cls, s, i + 1) else i
  }

  lemma {:induction false} RunIs(cls: char -> bool, s: string, i: nat, r: nat)
    requires i <= r <= |s|
    requires forall j :: i <= j < r ==> cls(s[j])
    requires r < |s| ==> !cls(s[r])
    ensures Run(cls, s, i) == r
    decreases r - i
  {
    if i < r { RunIs(cls, s, i + 1, r); }
  }

  datatype Head = NoHead | Head(table: string, body: string)

  /** updateHeadRe; since the greedy runs meet disjoint classes, only the last one can give a byte back. */
  function MatchUpdateHead(q: string): Head {
    var verb := Run(IsPatternSpace, q, 0);
    if !LettersAt(q, "UPDATE", verb) then NoHead else
    var table := Run(IsPatternSpace, q, verb + 6);
    var tableEnd := Run(IsTableByte, q, table);
    var set_ := Run(IsPatternSpace, q, tableEnd);
    if table == verb + 6 || tableEnd == table || set_ == tableEnd || !LettersAt(q, "SET", set_) then NoHead else
    var body := Run(IsPatternSpace, q, set_ + 3);
    if body == set_ + 3 then NoHead
    else if body < |q| then Head(q[table..tableEnd], q[body..])
    else if body - 1 > set_ + 3 then Head(q[table..tableEnd], q[body - 1..])
    else NoHead
  }

  /** The table behind the blanks at i, and the rest behind the blanks that follow it. */
  function TableHead(q: string, i: nat): Head
    requires i <= |q|
  {
    var table := Run(IsPatternSpace, q, i);
    var tableEnd := Run(IsTableByte, q, table);
    if table == i || tableEnd == table then NoHead
    else Head(q[table..tableEnd], q[Run(IsPatternSpace, q, tableEnd)..])
  }

  /** FROM behind the blanks at i, and the table behind it. */
  function FromHead(q: string, i: nat): Head
    requires i <= |q|
  {
    var from := Run(IsPatternSpace, q, i);
    if from == i || !LettersAt(q, "FROM", from) then NoHead else TableHead(q, from + 4)
  }

  /** deleteHeadRe. */
  function MatchDeleteHead(q: string): Head {
    var verb := Run(IsPatternSpace, q, 0);
    if !LettersAt(q, "DELETE", verb) then NoHead else FromHead(q, verb + 6)
  }

  // ------------------------------------------------------------ WHERE clause

  /** Where the first top-level keyword stands, the end of the text if there is none. */
  function FirstKeyword(s: string, keyword: string): (r: nat)
    ensures r <= |s|
    ensures r < |s| ==> KeywordAt(s, keyword, r)
    ensures forall i: nat :: KeywordAt(s, keyword, i) ==> r <= i
  {
    var idxs := KeywordIndices(s, keyword);
    if idxs == [] then |s| else
      assert idxs[0] in idxs;
      idxs[0]
  }

  /** Where the last top-level keyword stands, -1 if there is none. */
  function LastKeyword(s: string, keyword: string): (r: int)
    ensures -1 <= r < |s|
    ensures r >= 0 ==> KeywordAt(s, keyword, r)
    ensures forall i: nat :: KeywordAt(s, keyword, i) ==> i <= r
  {
    var idxs := KeywordIndices(s, keyword);
    if idxs == [] then -1 else
      assert idxs[|idxs| - 1] in idxs;
      idxs[|idxs| - 1]
  }

  function TailCut(w: string): (r: nat)
    ensures r <= |w|
  {
    var orderBy := FirstKeyword(w, "ORDER BY");
    var limit := FirstKeyword(w, "LIMIT");
    if limit < orderBy then limit else orderBy
  }

  /** What is left of a predicate once a top-level ORDER BY or LIMIT tail is cut off. */
  function WithoutTail(w: string): string {
    TrimSpace(w[..TailCut(w)])
  }

  /** stripTrailingClauses. */
  method StripTrailingClauses(w: string) returns (r: string)
    ensures r == WithoutTail(w)
  {
    var cut := |w|;
    var keywords := ["ORDER BY", "LIMIT"];
    for k := 0 to |keywords|
      invariant k == 0 ==> cut == |w|
      invariant k == 1 ==> cut == FirstKeyword(w, "ORDER BY")
      invariant k == 2 ==> cut == TailCut(w)
    {
      var idxs := TopLevelKeywordIndices(w, keywords[k]);
      assert idxs != [] ==> idxs[0] in idxs;
      if |idxs| > 0 && idxs[0] < cut { cut := idxs[0]; }
    }
    return TrimSpace(w[..cut]);
  }

  datatype Split = Split(before: string, where: string, hasWhere: bool)

  /** The pieces around a WHERE that stands at the given position. */
  function SplitAt(body: string, at: nat): Split
    requires at + 5 <= |body|
  {
    Split(body[..at], WithoutTail(TrimSpace(body[at + 5..])), true)
  }

  /** splitWhere. */
  function SplitWhere(body: string): Split {
    var last := LastKeyword(body, "WHERE");
    if last < 0 then Split(body, "", false) else SplitAt(body, last)
  }

  // ------------------------------------------------------------- SET columns

  function ParenStep(depth: int, c: char): int {
    if c == '(' then depth + 1 else if c == ')' then depth - 1 else depth
  }

  /** The pieces between the commas met at paren depth 0, starting at the given depth. */
  function CommaParts(s: string, depth: int): (parts: seq<string>)
    ensures |parts| >= 1
  {
    if s == "" then [""]
    else if s[0] == ',' && depth == 0 then [""] + CommaParts(s[1..], 0)
    else Prepend([s[0]], CommaParts(s[1..], ParenStep(depth, s[0])))
  }

  function Prepend(prefix: string, parts: seq<string>): seq<string>
    requires |parts| >= 1
  {
    [prefix + parts[0]] + parts[1..]
  }

  lemma PrependTwice(a: string, b: string, parts: seq<string>)
    requires |parts| >= 1
    ensures Prepend(a, Prepend(b, parts)) == Prepend(a + b, parts)
    ensures Prepend("", parts) == parts
  {
    assert a + (b + parts[0]) == (a + b) + parts[0];
    assert "" + parts[0] == parts[0];
  }

  lemma PrependConcat(prefix: string, parts: seq<string>, more: seq<string>)
    requires |parts| >= 1
    ensures Prepend(prefix, parts + more) == Prepend(prefix, parts) + more
  {
    assert (parts + more)[1..] == parts[1..] + more;
  }

  function IndexOf(s: string, c: char): (r: nat)
    ensures r <= |s|
    ensures r < |s| ==> s[r] == c
    ensures forall i :: 0 <= i < r ==> s[i] != c
  {
    if s == "" || s[0] == c then 0 else 1 + IndexOf(s[1..], c)
  }

  /** The name left of the first '=' of a piece; a piece without '=' names nothing. */
  function PartColumn(p: string): seq<string> {
    var eq := IndexOf(p, '=');
    if eq < |p| then [UnquoteIdent(TrimSpace(p[..eq]))] else []
  }

  function PartColumns(parts: seq<string>): seq<string> {
    if parts == [] then [] else PartColumn(parts[0]) + PartColumns(parts[1..])
  }

  function ColumnsOf(setClause: string): seq<string> {
    PartColumns(CommaParts(setClause, 0))
  }

  lemma {:induction false} PartColumnsConcat(a: seq<string>, b: seq<string>)
    ensures PartColumns(a + b) == PartColumns(a) + PartColumns(b)
  {
    if a == [] {
      assert a + b == b;
    } else {
      assert (a + b)[1..] == a[1..] + b;
      PartColumnsConcat(a[1..], b);
      Assoc(PartColumn(a[0]), PartColumns(a[1..]), PartColumns(b));
    }
  }

  lemma PartColumnsSnoc(parts: seq<string>, last: string)
    ensures PartColumns(parts + [last]) == PartColumns(parts) + PartColumn(last)
  {
    PartColumnsConcat(parts, [last]);
    assert PartColumns([last]) == PartColumn(last) + [];
  }

  /** One character of the clause, read with start..i as the piece collected so far. */
  lemma CommaPartsStep(s: string, start: nat, i: nat, depth: int)
    requires start <= i < |s|
    ensures Prepend(s[start..i], CommaParts(s[i..], depth)) ==
      if s[i] == ',' && depth == 0 then [s[start..i]] + Prepend(s[i + 1..i + 1], CommaParts(s[i + 1..], 0))
      else Prepend(s[start..i + 1], CommaParts(s[i + 1..], ParenStep(depth, s[i])))
  {
    assert s[i..][1..] == s[i + 1..];
    if s[i] == ',' && depth == 0 {
      PrependTwice("", "", CommaParts(s[i + 1..], 0));
      assert s[i + 1..i + 1] == "";
      assert s[start..i] + "" == s[start..i];
    } else {
      PrependTwice(s[start..i], [s[i]], CommaParts(s[i + 1..], ParenStep(depth, s[i])));
      assert s[start..i] + [s[i]] == s[start..i + 1];
    }
  }

  /** parts and the open piece s[start..i] are what the loop has seen of the clause before i. */
  ghost predicate SplitSoFar(s: string, parts: seq<string>, start: nat, i: nat, depth: int) {
    start <= i <= |s| && CommaParts(s, 0) == parts + Prepend(s[start..i], CommaParts(s[i..], depth))
  }

  lemma SplitStarts(s: string)
    ensures SplitSoFar(s, [], 0, 0, 0)
  {
    assert s[0..] == s && s[0..0] == "";
    PrependTwice("", "", CommaParts(s, 0));
  }

  lemma SplitStep(s: string, parts: seq<string>, start: nat, i: nat, depth: int)
    requires i < |s| && SplitSoFar(s, parts, start, i, depth)
    ensures s[i] == ',' && depth == 0 ==> SplitSoFar(s, parts + [s[start..i]], i + 1, i + 1, 0)
    ensures s[i] != ',' || depth != 0 ==> SplitSoFar(s, parts, start, i + 1, ParenStep(depth, s[i]))
  {
    CommaPartsStep(s, start, i, depth);
    if s[i] == ',' && depth == 0 {
      Assoc(parts, [s[start..i]], Prepend(s[i + 1..i + 1], CommaParts(s[i + 1..], 0)));
    }
  }

  lemma SplitEnds(s: string, parts: seq<string>, start: nat, depth: int)
    requires SplitSoFar(s, parts, start, |s|, depth)
    ensures CommaParts(s, 0) == parts + [s[start..]]
  {
    assert s[start..|s|] + "" == s[start..];
  }

  /** The first loop of setColumns. */
  method SplitCommas(setClause: string) returns (parts: seq<string>)
    ensures parts == CommaParts(setClause, 0)
  {
    var depth, start := 0, 0;
    parts := [];
    var i := 0;
    SplitStarts(setClause);
    while i < |setClause|
      invariant 0 <= start <= i <= |setClause|
      invariant SplitSoFar(setClause, parts, start, i, depth)
    {
      var c := setClause[i];
      SplitStep(setClause, parts, start, i, depth);
      if c == '(' {
        depth := depth + 1;
      } else if c == ')' {
        depth := depth - 1;
      } else if c == ',' && depth == 0 {
        parts := parts + [setClause[start..i]];
        start := i + 1;
      }
      i := i + 1;
    }
    SplitEnds(setClause, parts, start, depth);
    parts := parts + [setClause[start..]];
  }

  /** cols are the names found in the first k pieces. */
  ghost predicate NamedSoFar(parts: seq<string>, k: nat, cols: seq<string>) {
    k <= |parts| && cols == PartColumns(parts[..k])
  }

  lemma NamedStep(parts: seq<string>, k: nat, cols: seq<string>)
    requires k < |parts| && NamedSoFar(parts, k, cols)
    ensures PartColumn(parts[k]) == [] ==> NamedSoFar(parts, k + 1, cols)
    ensures PartColumn(parts[k]) != [] ==> NamedSoFar(parts, k + 1, cols + [PartColumn(parts[k])[0]])
  {
    assert parts[..k + 1] == parts[..k] + [parts[k]];
    PartColumnsSnoc(parts[..k], parts[k]);
    assert cols + [] == cols;
  }

  /** setColumns. */
  method SetColumns(setClause: string) returns (cols: seq<string>)
    ensures cols == ColumnsOf(setClause)
  {
    var parts := SplitCommas(setClause);
    cols := [];
    for k := 0 to |parts|
      invariant NamedSoFar(parts, k, cols)
    {
      var p := parts[k];
      var eq := IndexOf(p, '=');
      NamedStep(parts, k, cols);
      if eq < |p| { cols := cols + [UnquoteIdent(TrimSpace(p[..eq]))]; }
    }
    assert parts[..|parts|] == parts;
  }

  // ------------------------------------------------------------------ ParseDML

  function ParseDML(query: string): ParsedDML {
    var q := StripComments(query);
    if HasSecondStatement(q) then UNPARSEABLE else
    var upper := ToUpper(q);
    if Occurs(" JOIN ", upper) || Occurs(" USING ", upper) then UNPARSEABLE else
    match MatchUpdateHead(q)
    case Head(name, body) =>
      var table := UnquoteIdent(name);
      if !ValidTable(table) then UNPARSEABLE else
      var s := SplitWhere(body);
      ParsedDML("UPDATE", table, s.where, s.hasWhere, ColumnsOf(s.before), true)
    case NoHead =>
      match MatchDeleteHead(q)
      case Head(name, body) =>
        var table := UnquoteIdent(name);
        if !ValidTable(table) then UNPARSEABLE else
        var s := SplitWhere(body);
        ParsedDML("DELETE", table, s.where, s.hasWhere, [], true)
      case NoHead => UNPARSEABLE
  }
}
