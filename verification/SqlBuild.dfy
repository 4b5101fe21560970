/**
 Dialect-aware SQL text: identifiers, literals, and the snapshot query
 (engine/internal/analyzer/sqlbuild.go and literal.go).
 */
module SqlBuild {
  import opened Text
  import Parser

  /** The database values a before-image holds. */
  datatype Cell = Null | Bool(b: bool) | Int(n: int) | Str(s: string)

  function OpenMark(driver: string): char {
    if driver == "mysql" then '`' else if driver == "sqlserver" then '[' else '"'
  }

  function CloseMark(driver: string): char {
    if driver == "mysql" then '`' else if driver == "sqlserver" then ']' else '"'
  }

  /** strings.ReplaceAll(s, mark, mark+mark). */
  function Doubled(mark: char, s: string): string {
    if s == "" then "" else (if s[0] == mark then [mark, mark] else [s[0]]) + Doubled(mark, s[1..])
  }

  function QuoteIdent(driver: string, name: string): string {
    [OpenMark(driver)] + Doubled(CloseMark(driver), name) + [CloseMark(driver)]
  }

  function QuoteString(s: string): string {
    "'" + Doubled('\'', s) + "'"
  }

  function Digit(d: nat): char
    requires d < 10
  {
    ('0' as int + d) as char
  }

  function Digits(n: nat): string {
    if n < 10 then [Digit(n)] else Digits(n / 10) + [Digit(n % 10)]
  }

  function FormatInt(n: int): string {
    if n < 0 then "-" + Digits(-n) else Digits(n)
  }

  function FormatBool(driver: string, b: bool): string {
    if driver == "postgres" then (if b then "TRUE" else "FALSE") else if b then "1" else "0"
  }

  function FormatLiteral(driver: string, v: Cell): string {
    match v
    case Null => "NULL"
    case Bool(b) => FormatBool(driver, b)
    case Int(n) => FormatInt(n)
    case Str(s) => QuoteString(s)
  }

  function WhereSuffix(p: Parser.ParsedDML): string {
    if p.hasWhere && p.whereClause != "" then " WHERE " + p.whereClause else ""
  }

  // ---------------------------------------------------------- snapshot columns

  /** The names with letter case folded away. */
  function FoldedNames(names: seq<string>): set<string> {
    if names == [] then {} else FoldedNames(names[..|names| - 1]) + {ToLower(names[|names| - 1])}
  }

  /** name occurs in names, letter case ignored. */
  predicate HasName(names: seq<string>, name: string) {
    ToLower(name) in FoldedNames(names)
  }

  lemma {:induction false} FoldedNamesAreAll(names: seq<string>)
    ensures forall k :: 0 <= k < |names| ==> HasName(names, names[k])
    ensures forall f: string :: f in FoldedNames(names) ==> exists k :: 0 <= k < |names| && ToLower(names[k]) == f
  {
    if names != [] {
      var init := names[..|names| - 1];
      FoldedNamesAreAll(init);
      assert forall k :: 0 <= k < |init| ==> init[k] == names[k];
    }
  }

  /** Column names are pairwise different even when letter case is ignored. */
  ghost predicate DistinctFold(names: seq<string>) {
    forall j, k | 0 <= j < k < |names| :: !EqualFold(names[j], names[k])
  }

  /** names without every name that repeats an earlier one up to letter case. */
  function FirstByName(names: seq<string>): seq<string> {
    if names == [] then []
    else
      var init, last := names[..|names| - 1], names[|names| - 1];
      FirstByName(init) + if HasName(init, last) then [] else [last]
  }

  /** The columns the UPDATE snapshot selects: primary key, then changed columns, once each. */
  function SnapshotColumns(pkCols: seq<string>, setCols: seq<string>): seq<string> {
    FirstByName(pkCols + setCols)
  }

  lemma {:induction false} FirstByNameKeepsNames(names: seq<string>)
    ensures FoldedNames(FirstByName(names)) == FoldedNames(names)
    ensures DistinctFold(FirstByName(names))
  {
    if names != [] {
      var init, last := names[..|names| - 1], names[|names| - 1];
      FirstByNameKeepsNames(init);
      OneMoreName(FirstByName(init), last);
      assert FirstByName(init) + [] == FirstByName(init);
    }
  }

  lemma OneMoreName(r: seq<string>, last: string)
    ensures FoldedNames(r + [last]) == FoldedNames(r) + {ToLower(last)}
    ensures DistinctFold(r) && !HasName(r, last) ==> DistinctFold(r + [last])
  {
    assert (r + [last])[..|r|] == r;
    FoldedNamesAreAll(r);
  }

  function Quoted(driver: string, names: seq<string>): (r: seq<string>)
    ensures |r| == |names| && forall k :: 0 <= k < |names| ==> r[k] == QuoteIdent(driver, names[k])
  {
    seq(|names|, k requires 0 <= k < |names| => QuoteIdent(driver, names[k]))
  }

  function SnapshotText(driver: string, p: Parser.ParsedDML, cols: string): string {
    "SELECT " + cols + " FROM " + QuoteIdent(driver, p.table) + WhereSuffix(p)
  }

  /** The text of the snapshot query. */
  function SnapshotQuery(driver: string, p: Parser.ParsedDML, pkCols: seq<string>): string {
    SnapshotText(driver, p, if p.verb == "DELETE" then "*" else Join(Quoted(driver, SnapshotColumns(pkCols, p.setCols)), ", "))
  }

  /** What the loops of BuildSnapshotSQL hold after looking at these names. */
  ghost predicate Collected(driver: string, names: seq<string>, seen: map<string, bool>, cols: seq<string>) {
    cols == Quoted(driver, FirstByName(names)) && seen.Keys == FoldedNames(names)
  }

  lemma Collect(driver: string, names: seq<string>, c: string, seen: map<string, bool>, cols: seq<string>)
    requires Collected(driver, names, seen, cols)
    ensures ToLower(c) in seen ==> Collected(driver, names + [c], seen, cols)
    ensures ToLower(c) !in seen ==>
      Collected(driver, names + [c], seen[ToLower(c) := true], cols + [QuoteIdent(driver, c)])
  {
    var t := names + [c];
    assert t[..|t| - 1] == names && t[|t| - 1] == c;
    assert seen[ToLower(c) := true].Keys == seen.Keys + {ToLower(c)};
    assert FirstByName(names) + [] == FirstByName(names);
  }

  /** BuildSnapshotSQL: the two loops share the map of lower-cased names already taken. */
  method BuildSnapshotSQL(driver: string, p: Parser.ParsedDML, pkCols: seq<string>) returns (sql: string)
    ensures sql == SnapshotQuery(driver, p, pkCols)
  {
    if p.verb == "DELETE" {
      return SnapshotText(driver, p, "*");
    }
    var seen: map<string, bool> := map[];
    var cols := [];
    for i := 0 to |pkCols|
      invariant Collected(driver, pkCols[..i], seen, cols)
    {
      var c := pkCols[i];
      Collect(driver, pkCols[..i], c, seen, cols);
      assert pkCols[..i + 1] == pkCols[..i] + [c];
      if ToLower(c) !in seen {
        seen := seen[ToLower(c) := true];
        cols := cols + [QuoteIdent(driver, c)];
      }
    }
    assert pkCols[..|pkCols|] == pkCols + p.setCols[..0];
    for i := 0 to |p.setCols|
      invariant Collected(driver, pkCols + p.setCols[..i], seen, cols)
    {
      var c := p.setCols[i];
      Collect(driver, pkCols + p.setCols[..i], c, seen, cols);
      assert pkCols + p.setCols[..i + 1] == pkCols + p.setCols[..i] + [c];
      if ToLower(c) !in seen {
        seen := seen[ToLower(c) := true];
        cols := cols + [QuoteIdent(driver, c)];
      }
    }
    assert p.setCols[..|p.setCols|] == p.setCols;
    return SnapshotText(driver, p, Join(cols, ", "));
  }
}
