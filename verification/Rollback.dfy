/**
 BuildRollbackSQL (engine/internal/analyzer/rollback.go). Plan is the list of statements the undo
 text stands for; the methods fill a text buffer row by row and are proved to print exactly it.
 */
module Rollback {
  import opened Text
  import Parser
  import opened SqlBuild

  type Row = seq<Cell>
  datatype Setting = Setting(col: string, value: Cell)
  datatype Stmt =
    | Insert(table: string, cols: seq<string>, values: seq<Cell>)
    | Update(table: string, sets: seq<Setting>, keys: seq<Setting>)

  // ---------------------------------------------------------------- the plan

  /** The last position whose name equals the given one up to letter case, -1 if there is none. */
  function ColumnIndex(cols: seq<string>, name: string): (r: int)
    ensures -1 <= r < |cols|
    ensures r >= 0 ==> EqualFold(cols[r], name)
    ensures forall k :: r < k < |cols| ==> !EqualFold(cols[k], name)
  {
    if cols == [] then -1
    else if EqualFold(cols[|cols| - 1], name) then |cols| - 1
    else ColumnIndex(cols[..|cols| - 1], name)
  }

  predicate AllPresent(cols: seq<string>, names: seq<string>) {
    forall k | 0 <= k < |names| :: ColumnIndex(cols, names[k]) >= 0
  }

  predicate ShareName(a: seq<string>, b: seq<string>) {
    exists j, k | 0 <= j < |a| && 0 <= k < |b| :: EqualFold(a[j], b[k])
  }

  function Settings(names: seq<string>, cols: seq<string>, row: Row): (r: seq<Setting>)
    requires AllPresent(cols, names) && |row| == |cols|
    ensures |r| == |names|
    ensures forall k :: 0 <= k < |names| ==> r[k] == Setting(names[k], row[ColumnIndex(cols, names[k])])
  {
    seq(|names|, k requires 0 <= k < |names| => Setting(names[k], row[ColumnIndex(cols, names[k])]))
  }

  ghost predicate Aligned(cols: seq<string>, rows: seq<Row>) {
    forall i | 0 <= i < |rows| :: |rows[i]| == |cols|
  }

  function DeletePlan(table: string, cols: seq<string>, rows: seq<Row>): (r: seq<Stmt>)
    ensures |r| == |rows|
    ensures forall i :: 0 <= i < |rows| ==> r[i] == Insert(table, cols, rows[i])
  {
    seq(|rows|, i requires 0 <= i < |rows| => Insert(table, cols, rows[i]))
  }

  function UpdatePlan(p: Parser.ParsedDML, cols: seq<string>, pkCols: seq<string>, rows: seq<Row>): (r: seq<Stmt>)
    requires Aligned(cols, rows) && AllPresent(cols, pkCols) && AllPresent(cols, p.setCols)
    ensures |r| == |rows|
    ensures forall i :: 0 <= i < |rows| ==>
      r[i] == Update(p.table, Settings(p.setCols, cols, rows[i]), Settings(pkCols, cols, rows[i]))
  {
    seq(|rows|, i requires 0 <= i < |rows| =>
      Update(p.table, Settings(p.setCols, cols, rows[i]), Settings(pkCols, cols, rows[i])))
  }

  /** When an UPDATE can be undone from this snapshot. */
  predicate Undoable(p: Parser.ParsedDML, cols: seq<string>, pkCols: seq<string>) {
    !ShareName(pkCols, p.setCols) && AllPresent(cols, pkCols) && AllPresent(cols, p.setCols)
  }

  function Plan(p: Parser.ParsedDML, cols: seq<string>, pkCols: seq<string>, rows: seq<Row>): Option<seq<Stmt>>
    requires Aligned(cols, rows)
  {
    if rows == [] then None
    else if p.verb == "DELETE" then Some(DeletePlan(p.table, cols, rows))
    else if p.verb == "UPDATE" && pkCols != [] && Undoable(p, cols, pkCols) then Some(UpdatePlan(p, cols, pkCols, rows))
    else None
  }

  // ---------------------------------------------------------------- its text

  function Literals(driver: string, values: seq<Cell>): (r: seq<string>)
    ensures |r| == |values| && forall k :: 0 <= k < |values| ==> r[k] == FormatLiteral(driver, values[k])
  {
    seq(|values|, k requires 0 <= k < |values| => FormatLiteral(driver, values[k]))
  }

  function SettingText(driver: string, s: Setting): string {
    QuoteIdent(driver, s.col) + " = " + FormatLiteral(driver, s.value)
  }

  function SettingTexts(driver: string, settings: seq<Setting>): (r: seq<string>)
    ensures |r| == |settings| && forall k :: 0 <= k < |settings| ==> r[k] == SettingText(driver, settings[k])
  {
    seq(|settings|, k requires 0 <= k < |settings| => SettingText(driver, settings[k]))
  }

  function InsertPrefix(driver: string, table: string, cols: seq<string>): string {
    "INSERT INTO " + QuoteIdent(driver, table) + " (" + Join(Quoted(driver, cols), ", ") + ") VALUES "
  }

  function StmtText(driver: string, s: Stmt): string {
    match s
    case Insert(table, cols, values) =>
      InsertPrefix(driver, table, cols) + "(" + Join(Literals(driver, values), ", ") + ");\n"
    case Update(table, sets, keys) =>
      "UPDATE " + QuoteIdent(driver, table) + " SET " + Join(SettingTexts(driver, sets), ", ")
      + " WHERE " + Join(SettingTexts(driver, keys), " AND ") + ";\n"
  }

  function UndoText(driver: string, stmts: seq<Stmt>): string {
    if stmts == [] then ""
    else UndoText(driver, stmts[..|stmts| - 1]) + StmtText(driver, stmts[|stmts| - 1])
  }

  // -------------------------------------------------------------- the methods

  method QuoteAll(driver: string, names: seq<string>) returns (quoted: seq<string>)
    ensures quoted == Quoted(driver, names)
  {
    quoted := [];
    for i := 0 to |names|
      invariant quoted == Quoted(driver, names[..i])
    {
      quoted := quoted + [QuoteIdent(driver, names[i])];
    }
    assert names[..|names|] == names;
  }

  method FormatRow(driver: string, row: Row) returns (vals: seq<string>)
    ensures vals == Literals(driver, row)
  {
    vals := [];
    for j := 0 to |row|
      invariant vals == Literals(driver, row[..j])
    {
      vals := vals + [FormatLiteral(driver, row[j])];
    }
    assert row[..|row|] == row;
  }

  method BuildDeleteRollback(driver: string, p: Parser.ParsedDML, cols: seq<string>, rows: seq<Row>) returns (text: string)
    requires Aligned(cols, rows)
    ensures text == UndoText(driver, DeletePlan(p.table, cols, rows))
  {
    var quoted := QuoteAll(driver, cols);
    text := "";
    ghost var plan := DeletePlan(p.table, cols, rows);
    for i := 0 to |rows|
      invariant text == UndoText(driver, plan[..i])
    {
      var line := InsertLine(driver, p.table, quoted, cols, rows[i]);
      GrowPlan(driver, plan, i);
      text := text + line;
    }
    assert plan[..|rows|] == plan;
  }

  /** The loop body of buildDeleteRollback: one INSERT with every value of the row. */
  method InsertLine(driver: string, table: string, quoted: seq<string>, cols: seq<string>, row: Row) returns (line: string)
    requires quoted == Quoted(driver, cols)
    ensures line == StmtText(driver, Insert(table, cols, row))
  {
    var vals := FormatRow(driver, row);
    var prefix := "INSERT INTO " + QuoteIdent(driver, table) + " (" + Join(quoted, ", ") + ") VALUES ";
    line := prefix + "(" + Join(vals, ", ") + ");\n";
  }

  lemma GrowPlan(driver: string, plan: seq<Stmt>, i: nat)
    requires i < |plan|
    ensures UndoText(driver, plan[..i + 1]) == UndoText(driver, plan[..i]) + StmtText(driver, plan[i])
  {
    assert plan[..i + 1][..i] == plan[..i];
  }

  method ColumnPositions(cols: seq<string>) returns (idx: map<string, nat>)
    ensures forall name: string :: ToLower(name) in idx <==> ColumnIndex(cols, name) >= 0
    ensures forall name: string :: ToLower(name) in idx ==> idx[ToLower(name)] == ColumnIndex(cols, name)
  {
    idx := map[];
    for i := 0 to |cols|
      invariant forall name: string :: ToLower(name) in idx <==> ColumnIndex(cols[..i], name) >= 0
      invariant forall name: string :: ToLower(name) in idx ==> idx[ToLower(name)] == ColumnIndex(cols[..i], name)
    {
      assert cols[..i + 1][..i] == cols[..i];
      idx := idx[ToLower(cols[i]) := i];
    }
    assert cols[..|cols|] == cols;
  }

  /** The first loop of buildUpdateRollback: is a primary-key column itself being set? */
  method SetsKey(pkCols: seq<string>, setCols: seq<string>) returns (r: bool)
    ensures r <==> ShareName(pkCols, setCols)
  {
    for i := 0 to |pkCols|
      invariant forall j, k :: 0 <= j < i && 0 <= k < |setCols| ==> !EqualFold(pkCols[j], setCols[k])
    {
      for k := 0 to |setCols|
        invariant forall m :: 0 <= m < k ==> !EqualFold(pkCols[i], setCols[m])
      {
        if EqualFold(pkCols[i], setCols[k]) { return true; }
      }
    }
    return false;
  }

  /** The two presence loops of buildUpdateRollback. */
  method AllIndexed(names: seq<string>, cols: seq<string>, idx: map<string, nat>) returns (r: bool)
    requires forall k :: 0 <= k < |names| ==> (ToLower(names[k]) in idx <==> ColumnIndex(cols, names[k]) >= 0)
    ensures r <==> AllPresent(cols, names)
  {
    for i := 0 to |names|
      invariant forall k :: 0 <= k < i ==> ColumnIndex(cols, names[k]) >= 0
    {
      if ToLower(names[i]) !in idx { return false; }
    }
    return true;
  }

  method BuildUpdateRollback(driver: string, p: Parser.ParsedDML, cols: seq<string>, pkCols: seq<string>, rows: seq<Row>)
    returns (text: string, ok: bool)
    requires Aligned(cols, rows)
    ensures ok <==> Undoable(p, cols, pkCols)
    ensures text == if ok then UndoText(driver, UpdatePlan(p, cols, pkCols, rows)) else ""
  {
    var shared := SetsKey(pkCols, p.setCols);
    if shared { return "", false; }
    var idx := ColumnPositions(cols);
    var keysThere := AllIndexed(pkCols, cols, idx);
    if !keysThere { return "", false; }
    var setsThere := AllIndexed(p.setCols, cols, idx);
    if !setsThere { return "", false; }
    text, ok := "", true;
    ghost var plan := UpdatePlan(p, cols, pkCols, rows);
    for i := 0 to |rows|
      invariant text == UndoText(driver, plan[..i])
    {
      var line := UpdateLine(driver, p, cols, pkCols, idx, rows[i]);
      GrowPlan(driver, plan, i);
      text := text + line;
    }
    assert plan[..|rows|] == plan;
  }

  /** The inner loops of buildUpdateRollback: one "column = literal" per name. */
  method SettingsText(driver: string, names: seq<string>, cols: seq<string>, idx: map<string, nat>, row: Row)
    returns (texts: seq<string>)
    requires AllPresent(cols, names) && |row| == |cols|
    requires forall k :: 0 <= k < |names| ==> ToLower(names[k]) in idx && idx[ToLower(names[k])] == ColumnIndex(cols, names[k])
    ensures texts == SettingTexts(driver, Settings(names, cols, row))
  {
    texts := [];
    for k := 0 to |names|
      invariant texts == SettingTexts(driver, Settings(names, cols, row)[..k])
    {
      var c := names[k];
      texts := texts + [QuoteIdent(driver, c) + " = " + FormatLiteral(driver, row[idx[ToLower(c)]])];
    }
    assert Settings(names, cols, row)[..|names|] == Settings(names, cols, row);
  }

  /** The loop body of buildUpdateRollback: one UPDATE addressed by the primary key. */
  method UpdateLine(driver: string, p: Parser.ParsedDML, cols: seq<string>, pkCols: seq<string>, idx: map<string, nat>, row: Row)
    returns (line: string)
    requires AllPresent(cols, pkCols) && AllPresent(cols, p.setCols) && |row| == |cols|
    requires forall name: string :: ColumnIndex(cols, name) >= 0 ==> ToLower(name) in idx
    requires forall name: string :: ToLower(name) in idx ==> idx[ToLower(name)] == ColumnIndex(cols, name)
    ensures line == StmtText(driver, Update(p.table, Settings(p.setCols, cols, row), Settings(pkCols, cols, row)))
  {
    var sets := SettingsText(driver, p.setCols, cols, idx, row);
    var wheres := SettingsText(driver, pkCols, cols, idx, row);
    line := "UPDATE " + QuoteIdent(driver, p.table) + " SET " + Join(sets, ", ") + " WHERE " + Join(wheres, " AND ") + ";\n";
  }

  method BuildRollbackSQL(driver: string, p: Parser.ParsedDML, snapshotCols: seq<string>, pkCols: seq<string>, rows: seq<Row>)
    returns (text: string, ok: bool)
    requires Aligned(snapshotCols, rows)
    ensures ok <==> Plan(p, snapshotCols, pkCols, rows).Some?
    ensures text == if ok then UndoText(driver, Plan(p, snapshotCols, pkCols, rows).value) else ""
  {
    if |rows| == 0 { return "", false; }
    if p.verb == "DELETE" {
      text := BuildDeleteRollback(driver, p, snapshotCols, rows);
      ok := true;
    } else if p.verb == "UPDATE" {
      if |pkCols| == 0 { return "", false; }
      text, ok := BuildUpdateRollback(driver, p, snapshotCols, pkCols, rows);
    } else {
      return "", false;
    }
  }

  // ------------------------------------------------------------ when it refuses

  lemma PresentInSnapshot(cols: seq<string>, names: seq<string>, name: string)
    requires FoldedNames(cols) == FoldedNames(names) && name in names
    ensures ColumnIndex(cols, name) >= 0
  {
    FoldedNamesAreAll(names);
    FoldedNamesAreAll(cols);
    var j :| 0 <= j < |names| && names[j] == name;
    assert HasName(names, name);
    var k :| 0 <= k < |cols| && ToLower(cols[k]) == ToLower(name);
    assert EqualFold(cols[k], name);
  }

  /**
   On the columns BuildSnapshotSQL selects, the missing-column refusal never fires: a rollback is
   refused exactly when there is no row, no primary key, or a primary-key column is being set.
   */
  lemma SnapshotNeverMisses(p: Parser.ParsedDML, pkCols: seq<string>, rows: seq<Row>)
    requires p.verb == "UPDATE" && Aligned(SnapshotColumns(pkCols, p.setCols), rows)
    ensures Plan(p, SnapshotColumns(pkCols, p.setCols), pkCols, rows).Some?
      <==> rows != [] && pkCols != [] && !ShareName(pkCols, p.setCols)
    ensures DistinctFold(SnapshotColumns(pkCols, p.setCols))
  {
    var names := pkCols + p.setCols;
    var cols := SnapshotColumns(pkCols, p.setCols);
    FirstByNameKeepsNames(names);
    forall k | 0 <= k < |pkCols| ensures ColumnIndex(cols, pkCols[k]) >= 0 {
      assert names[k] == pkCols[k];
      PresentInSnapshot(cols, names, pkCols[k]);
    }
    forall k | 0 <= k < |p.setCols| ensures ColumnIndex(cols, p.setCols[k]) >= 0 {
      assert names[|pkCols| + k] == p.setCols[k];
      PresentInSnapshot(cols, names, p.setCols[k]);
    }
  }
}
