/**
 Table references and the access scope (engine/internal/agent/mcp_scope.go, engine/internal/domain/mcp_scope.go).
 The two regular expressions that pick references out of a cleaned query are unknown functions.
 */
module McpScope {
  import opened Text
  import opened Parser
  import opened NoiseStripper

  datatype Scope = Scope(databases: seq<string>, schemas: seq<string>, tables: seq<string>)
  datatype Ref = Ref(database: string, schema: string, table: string)

  /** mcpTableReference's captures, and whether mcpFromOrJoin matches. */
  datatype Patterns = Patterns(references: string -> seq<string>, fromOrJoin: string -> bool)

  function DefaultSchema(driver: string, database: string): string {
    if driver == "postgres" then "public"
    else if driver == "sqlserver" then "dbo"
    else if driver == "sqlite" then "main"
    else database
  }

  /** strings.Split on '.'. */
  function SplitDots(s: string): (r: seq<string>)
    ensures |r| >= 1
  {
    if s == "" then [""]
    else
      var rest := SplitDots(s[1..]);
      if s[0] == '.' then [""] + rest else [[s[0]] + rest[0]] + rest[1..]
  }

  function TrimDotsRight(s: string): string {
    if s != "" && s[|s| - 1] == '.' then TrimDotsRight(s[..|s| - 1]) else s
  }

  /** One part of a reference without its quote marks and blanks. */
  function CleanPart(s: string): string {
    TrimSpace(TrimQuotesRight(TrimQuotesLeft(s)))
  }

  function CleanParts(parts: seq<string>): (r: seq<string>)
    ensures |r| == |parts| && forall i :: 0 <= i < |r| ==> r[i] == CleanPart(parts[i])
  {
    seq(|parts|, i requires 0 <= i < |parts| => CleanPart(parts[i]))
  }

  /** What a reference of one to three parts names. */
  function RefOf(driver: string, database: string, parts: seq<string>): Ref
    requires 1 <= |parts| <= 3
  {
    if |parts| == 1 then Ref(database, DefaultSchema(driver, database), parts[0])
    else if |parts| == 3 then Ref(parts[0], parts[1], parts[2])
    else if driver == "mysql" then Ref(parts[0], DefaultSchema(driver, database), parts[1])
    else Ref(database, parts[0], parts[1])
  }

  function ParseRef(driver: string, database: string, raw: string): Option<Ref> {
    var trimmed := TrimSpace(TrimDotsRight(raw));
    if trimmed == "" then None
    else
      var parts := CleanParts(SplitDots(trimmed));
      if |parts| > 3 || "" in parts then None else Some(RefOf(driver, database, parts))
  }

  /** parseMCPTableRef. */
  method ParseMCPTableRef(driver: string, defaultDatabase: string, raw: string) returns (r: Option<Ref>)
    ensures r == ParseRef(driver, defaultDatabase, raw)
  {
    var trimmed := TrimSpace(TrimDotsRight(raw));
    if trimmed == "" { return None; }
    var parts := SplitDots(trimmed);
    if |parts| > 3 { return None; }
    ghost var original := parts;
    for i := 0 to |parts|
      invariant |parts| == |original|
      invariant forall k :: 0 <= k < i ==> parts[k] == CleanPart(original[k]) != ""
      invariant forall k :: i <= k < |parts| ==> parts[k] == original[k]
    {
      parts := parts[i := CleanPart(parts[i])];
      if parts[i] == "" {
        assert CleanParts(original)[i] == "";
        return None;
      }
    }
    assert parts == CleanParts(original);
    var ref := Ref(defaultDatabase, DefaultSchema(driver, defaultDatabase), "");
    if |parts| == 1 {
      ref := ref.(table := parts[0]);
    } else if |parts| == 2 {
      if driver == "mysql" {
        ref := ref.(database := parts[0], table := parts[1]);
      } else {
        ref := ref.(schema := parts[0], table := parts[1]);
      }
    } else {
      ref := Ref(parts[0], parts[1], parts[2]);
    }
    return Some(ref);
  }

  predicate AllowsExact(allowed: seq<string>, name: string) {
    allowed == [] || exists i | 0 <= i < |allowed| :: TrimSpace(allowed[i]) == name
  }

  predicate AllowsTable(scope: Scope, schema: string, table: string) {
    scope.tables == [] || exists i | 0 <= i < |scope.tables| ::
      TrimSpace(scope.tables[i]) == table || TrimSpace(scope.tables[i]) == schema + "." + table
  }

  /** validateMCPRef. */
  predicate RefAllowed(driver: string, database: string, scope: Scope, raw: string) {
    match ParseRef(driver, database, raw)
    case None => false
    case Some(ref) =>
      AllowsExact(scope.databases, ref.database) && AllowsExact(scope.schemas, ref.schema) && AllowsTable(scope, ref.schema, ref.table)
  }

  /** ValidateMCPQueryScope, which looks only at the cleaned query. */
  predicate QueryAllowed(x: Patterns, driver: string, database: string, scope: Scope, query: string) {
    (scope.databases == [] && scope.schemas == [] && scope.tables == []) ||
    var clean := Cleaned(query);
    var refs := x.references(clean);
    && !(x.fromOrJoin(clean) && refs == [])
    && forall i | 0 <= i < |refs| :: RefAllowed(driver, database, scope, refs[i])
  }

  // ------------------------------------------------------------------ properties

  /** The names of an allowlist, blanks around them dropped. */
  function Names(allowed: seq<string>): (r: set<string>)
    ensures forall n :: n in r <==> exists i | 0 <= i < |allowed| :: TrimSpace(allowed[i]) == n
  {
    set i | 0 <= i < |allowed| :: TrimSpace(allowed[i])
  }

  /** An empty allowlist lets every name through, any other exactly its own names. */
  predicate Admits(allowed: seq<string>, name: string) {
    allowed != [] ==> name in Names(allowed)
  }

  /** What plain dotted names refer to, dialect by dialect. */
  function Meaning(driver: string, database: string, names: seq<string>): Ref
    requires 1 <= |names| <= 3
  {
    var home := match driver
      case "postgres" => "public"
      case "sqlserver" => "dbo"
      case "sqlite" => "main"
      case _ => database;
    match |names|
    case 1 => Ref(database, home, names[0])
    case 2 => if driver == "mysql" then Ref(names[0], home, names[1]) else Ref(database, names[0], names[1])
    case _ => Ref(names[0], names[1], names[2])
  }

  /**
   Which plain references a scope lets through: database, schema and table must each be on their list, if there is
   one; a table may be listed with its schema.
   */
  lemma RefAllowedIff(driver: string, database: string, scope: Scope, names: seq<string>)
    requires 1 <= |names| <= 3 && forall i :: 0 <= i < |names| ==> IsWord(names[i])
    ensures var ref := Meaning(driver, database, names);
      RefAllowed(driver, database, scope, Join(names, ".")) <==>
        && Admits(scope.databases, ref.database) && Admits(scope.schemas, ref.schema)
        && (Admits(scope.tables, ref.table) || Admits(scope.tables, ref.schema + "." + ref.table))
  {
    DottedNamesReadBack(driver, database, names);
  }

  /**
   Which queries a scope lets through: all of them if it has no list at all; otherwise exactly those whose every
   reference outside literals and comments is let through, and that show one wherever they have a FROM or JOIN.
   */
  lemma QueryAllowedIff(x: Patterns, driver: string, database: string, scope: Scope, query: string)
    ensures QueryAllowed(x, driver, database, scope, query) <==>
      || (|scope.databases| + |scope.schemas| + |scope.tables| == 0)
      || (&& (x.references(Cleaned(query)) == [] ==> !x.fromOrJoin(Cleaned(query)))
          && forall r | r in x.references(Cleaned(query)) :: RefAllowed(driver, database, scope, r))
  {
    var refs := x.references(Cleaned(query));
    assert forall i :: 0 <= i < |refs| ==> refs[i] in refs;
  }

  /** A reference to a table outside a list of tables makes the whole query refused. */
  lemma OutsideTableIsRefused(x: Patterns, driver: string, database: string, scope: Scope, query: string, names: seq<string>)
    requires 1 <= |names| <= 3 && forall i :: 0 <= i < |names| ==> IsWord(names[i])
    requires Join(names, ".") in x.references(Cleaned(query)) && scope.tables != []
    requires var ref := Meaning(driver, database, names);
      ref.table !in Names(scope.tables) && ref.schema + "." + ref.table !in Names(scope.tables)
    ensures !QueryAllowed(x, driver, database, scope, query)
  {
    RefAllowedIff(driver, database, scope, names);
    QueryAllowedIff(x, driver, database, scope, query);
  }

  /** Two queries that differ in a byte inside a literal or a comment get the same verdict. */
  lemma ScopeIgnoresNoise(x: Patterns, driver: string, database: string, scope: Scope, query: string, i: nat, c: char)
    requires i < |query| && Hidden(ModeAt(query, i), query[i]) && Hidden(ModeAt(query, i), c)
    ensures QueryAllowed(x, driver, database, scope, query[i := c]) == QueryAllowed(x, driver, database, scope, query)
  {
    HiddenByteIsBlanked(query, i, c);
  }

  lemma {:induction false} SplitWord(s: string)
    requires '.' !in s
    ensures SplitDots(s) == [s]
  {
    if s != "" { SplitWord(s[1..]); assert [s[0]] + s[1..] == s; }
  }

  lemma {:induction false} SplitJoined(a: string, b: string)
    requires '.' !in a
    ensures SplitDots(a + "." + b) == [a] + SplitDots(b)
  {
    if a == "" {
      assert a + "." + b == "." + b && ("." + b)[1..] == b;
    } else {
      assert (a + "." + b)[1..] == a[1..] + "." + b;
      SplitJoined(a[1..], b);
      assert [a[0]] + a[1..] == a;
    }
  }

  lemma NameIsClean(s: string)
    requires IsWord(s)
    ensures CleanPart(s) == s && '.' !in s && TrimDotsRight(s) == s && TrimSpace(s) == s
  {
    assert IsWordByte(s[0]) && IsWordByte(s[|s| - 1]);
    TrimmedIsFixed(s);
  }

  /** Plain names joined by dots are read back as the reference those names stand for. */
  lemma DottedNamesReadBack(driver: string, database: string, names: seq<string>)
    requires 1 <= |names| <= 3 && forall i :: 0 <= i < |names| ==> IsWord(names[i])
    ensures ParseRef(driver, database, Join(names, ".")) == Some(Meaning(driver, database, names))
  {
    NamesAreParts(driver, database, names);
    RefIsMeaning(driver, database, names);
  }

  lemma RefIsMeaning(driver: string, database: string, names: seq<string>)
    requires 1 <= |names| <= 3
    ensures RefOf(driver, database, names) == Meaning(driver, database, names)
  {
  }

  lemma NamesAreParts(driver: string, database: string, names: seq<string>)
    requires 1 <= |names| <= 3 && forall i :: 0 <= i < |names| ==> IsWord(names[i])
    ensures ParseRef(driver, database, Join(names, ".")) == Some(RefOf(driver, database, names))
  {
    forall i | 0 <= i < |names| ensures CleanPart(names[i]) == names[i] && '.' !in names[i] { NameIsClean(names[i]); }
    DottedSplit(names);
    DottedIsTrimmed(names);
    assert CleanParts(names) == names;
  }

  lemma {:induction false} DottedSplit(names: seq<string>)
    requires names != [] && forall i :: 0 <= i < |names| ==> '.' !in names[i]
    ensures SplitDots(Join(names, ".")) == names
  {
    if |names| == 1 {
      SplitWord(names[0]);
    } else {
      DottedSplit(names[1..]);
      SplitJoined(names[0], Join(names[1..], "."));
    }
  }

  lemma {:induction false} DottedIsTrimmed(names: seq<string>)
    requires names != [] && forall i :: 0 <= i < |names| ==> IsWord(names[i])
    ensures var s := Join(names, "."); s != "" && IsWordByte(s[0]) && IsWordByte(s[|s| - 1]) && TrimDotsRight(s) == s && TrimSpace(s) == s
  {
    var s := Join(names, ".");
    assert IsWordByte(names[0][0]) && IsWordByte(names[|names| - 1][|names[|names| - 1]| - 1]);
    if |names| > 1 {
      DottedIsTrimmed(names[1..]);
      assert s[0] == names[0][0];
    }
    TrimmedIsFixed(s);
  }

  // -------------------------------------------------------------- what is no reference

  /** More than three names are no reference, and no scope lets them through. */
  lemma FourNamesAreRefused(driver: string, database: string, names: seq<string>)
    requires |names| > 3 && forall i :: 0 <= i < |names| ==> IsWord(names[i])
    ensures ParseRef(driver, database, Join(names, ".")) == None
    ensures forall scope :: !RefAllowed(driver, database, scope, Join(names, "."))
  {
    forall i | 0 <= i < |names| ensures '.' !in names[i] { NameIsClean(names[i]); }
    DottedSplit(names);
    DottedIsTrimmed(names);
  }

  /** An empty name anywhere is no reference either. */
  lemma EmptyNameIsRefused(driver: string, database: string, a: string, b: string)
    requires IsWord(a) && IsWord(b)
    ensures ParseRef(driver, database, a + "." + ("" + "." + b)) == None
    ensures forall scope :: !RefAllowed(driver, database, scope, a + "." + ("" + "." + b))
  {
    NameIsClean(a);
    NameIsClean(b);
    var s := a + "." + ("" + "." + b);
    SplitJoined(a, "" + "." + b);
    SplitJoined("", b);
    SplitWord(b);
    assert IsWordByte(a[0]) && IsWordByte(b[|b| - 1]) && s[0] == a[0] && s[|s| - 1] == b[|b| - 1];
    TrimmedIsFixed(s);
    var parts := [a] + ([""] + [b]);
    assert CleanParts(parts)[1] == "";
  }

  /** Dots behind a reference make no difference. */
  lemma TrailingDotIsIgnored(driver: string, database: string, raw: string)
    ensures ParseRef(driver, database, raw + ".") == ParseRef(driver, database, raw)
  {
    assert (raw + ".")[..|raw|] == raw;
  }

  /** Quote marks around a name, and blanks inside them, are not part of it. */
  lemma QuotedPartIsClean(open: string, before: string, name: string, after: string, close: string)
    requires IsWord(name) && Blank(before) && Blank(after)
    requires (forall c :: c in open ==> c in ['`', '"', '[', ']']) && (forall c :: c in close ==> c in ['`', '"', '[', ']'])
    ensures CleanPart(open + (before + name + after) + close) == name
  {
    var inner := before + name + after;
    assert IsWordByte(name[0]) && IsWordByte(name[|name| - 1]);
    InnerEnds(before, name, after);
    LeftMarksGo(open, inner + close);
    assert open + inner + close == open + (inner + close);
    assert (inner + close)[0] == inner[0];
    RightMarksGo(inner, close);
    TrimAround(before, name, after);
  }

  lemma InnerEnds(before: string, name: string, after: string)
    requires IsWord(name) && Blank(before) && Blank(after)
    ensures var s := before + name + after; s != "" && !IsQuoteMark(s[0]) && !IsQuoteMark(s[|s| - 1])
  {
    var s := before + name + after;
    assert IsWordByte(name[0]) && IsWordByte(name[|name| - 1]);
    assert s[0] == if before == "" then name[0] else before[0];
    assert s[|s| - 1] == if after == "" then name[|name| - 1] else after[|after| - 1];
  }

  lemma {:induction false} LeftMarksGo(marks: string, s: string)
    requires (forall c :: c in marks ==> IsQuoteMark(c)) && s != "" && !IsQuoteMark(s[0])
    ensures TrimQuotesLeft(marks + s) == s
  {
    if marks == "" {
      assert marks + s == s;
    } else {
      assert marks[0] in marks && (marks + s)[1..] == marks[1..] + s;
      LeftMarksGo(marks[1..], s);
    }
  }

  lemma {:induction false} RightMarksGo(s: string, marks: string)
    requires (forall c :: c in marks ==> IsQuoteMark(c)) && s != "" && !IsQuoteMark(s[|s| - 1])
    ensures TrimQuotesRight(s + marks) == s
    decreases |marks|
  {
    if marks == "" {
      assert s + marks == s;
    } else {
      var init := marks[..|marks| - 1];
      assert marks[|marks| - 1] in marks && (s + marks)[..|s + marks| - 1] == s + init;
      RightMarksGo(s, init);
    }
  }
}
