/**
 What running the undo script does to a table. A table is a list of rows under column names that
 differ even when letter case is ignored; names in statements are resolved ignoring case, NULL
 equals nothing, and cells are in the driver's stored form.
 */
module RollbackRestore {
  import opened Text
  import Parser
  import opened SqlBuild
  import opened Rollback
  import opened RollbackReader
  import opened RollbackRoundTrip

  datatype Table = Table(name: string, cols: seq<string>, rows: seq<Row>)

  ghost predicate TableOk(t: Table) {
    DistinctFold(t.cols) && Aligned(t.cols, t.rows)
  }

  // --------------------------------------------------------------- running statements

  predicate KeyMatches(cols: seq<string>, row: Row, key: Setting)
    requires |row| == |cols|
  {
    var i := ColumnIndex(cols, key.col);
    i >= 0 && row[i] != Null && row[i] == key.value
  }

  predicate KeysMatch(cols: seq<string>, row: Row, keys: seq<Setting>)
    requires |row| == |cols|
  {
    forall k | 0 <= k < |keys| :: KeyMatches(cols, row, keys[k])
  }

  /** Assign the settings to a row, in order. */
  function Assign(cols: seq<string>, row: Row, sets: seq<Setting>): (r: Row)
    requires |row| == |cols|
    ensures |r| == |row|
  {
    if sets == [] then row
    else
      var before := Assign(cols, row, sets[..|sets| - 1]);
      var i := ColumnIndex(cols, sets[|sets| - 1].col);
      if i < 0 then before else before[i := sets[|sets| - 1].value]
  }

  function SettingNames(settings: seq<Setting>): (r: seq<string>)
    ensures |r| == |settings| && forall k :: 0 <= k < |settings| ==> r[k] == settings[k].col
  {
    seq(|settings|, k requires 0 <= k < |settings| => settings[k].col)
  }

  function UpdatedRows(t: Table, sets: seq<Setting>, keys: seq<Setting>): (r: seq<Row>)
    requires Aligned(t.cols, t.rows)
    ensures |r| == |t.rows| && Aligned(t.cols, r)
    ensures forall i :: 0 <= i < |r| ==>
      r[i] == if KeysMatch(t.cols, t.rows[i], keys) then Assign(t.cols, t.rows[i], sets) else t.rows[i]
  {
    seq(|t.rows|, i requires 0 <= i < |t.rows| =>
      if KeysMatch(t.cols, t.rows[i], keys) then Assign(t.cols, t.rows[i], sets) else t.rows[i])
  }

  /** The row an INSERT adds: listed columns get their value, the others NULL. */
  function InsertedRow(cols: seq<string>, names: seq<string>, values: seq<Cell>): (r: Row)
    requires |names| == |values|
    ensures |r| == |cols|
    ensures forall j :: 0 <= j < |cols| ==>
      r[j] == var i := ColumnIndex(names, cols[j]); if i >= 0 then values[i] else Null
  {
    seq(|cols|, j requires 0 <= j < |cols| => var i := ColumnIndex(names, cols[j]); if i >= 0 then values[i] else Null)
  }

  /** One statement; None when it names another table, an unknown column or lists of unequal length. */
  function Run(t: Table, s: Stmt): (r: Option<Table>)
    requires Aligned(t.cols, t.rows)
    ensures r.Some? ==> r.value.cols == t.cols && r.value.name == t.name && Aligned(t.cols, r.value.rows)
  {
    match s
    case Insert(table, names, values) =>
      if table != t.name || |names| != |values| || !AllPresent(t.cols, names) then None
      else Some(t.(rows := t.rows + [InsertedRow(t.cols, names, values)]))
    case Update(table, sets, keys) =>
      if table != t.name || !AllPresent(t.cols, SettingNames(sets)) || !AllPresent(t.cols, SettingNames(keys)) then None
      else Some(t.(rows := UpdatedRows(t, sets, keys)))
  }

  function RunAll(t: Table, script: seq<Stmt>): Option<Table>
    requires Aligned(t.cols, t.rows)
    decreases |script|
  {
    if script == [] then Some(t)
    else
      match Run(t, script[0])
      case None => None
      case Some(next) => RunAll(next, script[1..])
  }

  // ------------------------------------------------------------------- projections

  /** The cells of a row under other names, as a SELECT of those names returns them. */
  function Project(cols: seq<string>, row: Row, names: seq<string>): (r: Row)
    requires AllPresent(cols, names) && |row| == |cols|
    ensures |r| == |names| && forall k :: 0 <= k < |names| ==> r[k] == row[ColumnIndex(cols, names[k])]
  {
    seq(|names|, k requires 0 <= k < |names| => row[ColumnIndex(cols, names[k])])
  }

  lemma {:induction false} IndexIgnoresCase(cols: seq<string>, a: string, b: string)
    requires EqualFold(a, b)
    ensures ColumnIndex(cols, a) == ColumnIndex(cols, b)
  {
    if cols != [] { IndexIgnoresCase(cols[..|cols| - 1], a, b); }
  }

  lemma IndexOfColumn(cols: seq<string>, j: nat, name: string)
    requires DistinctFold(cols) && j < |cols|
    ensures EqualFold(cols[j], name) <==> ColumnIndex(cols, name) == j
  {
    var i := ColumnIndex(cols, name);
    assert j < i ==> !EqualFold(cols[j], cols[i]);
  }

  /** The undo statements made from a snapshot are those made from the stored rows themselves. */
  lemma SettingsFromSnapshot(driver: string, cols: seq<string>, row: Row, snapCols: seq<string>, snap: Row, names: seq<string>)
    requires |row| == |cols| && |snap| == |snapCols|
    requires AllPresent(cols, snapCols) && AllPresent(snapCols, names)
    requires StoredCells(driver, snap) == Project(cols, row, snapCols)
    ensures AllPresent(cols, names)
    ensures StoredSettings(driver, Settings(names, snapCols, snap)) == Settings(names, cols, row)
  {
    forall k | 0 <= k < |names|
      ensures ColumnIndex(cols, names[k]) >= 0
      ensures Stored(driver, snap[ColumnIndex(snapCols, names[k])]) == row[ColumnIndex(cols, names[k])]
    {
      var m := ColumnIndex(snapCols, names[k]);
      IndexIgnoresCase(cols, snapCols[m], names[k]);
      assert StoredCells(driver, snap)[m] == Project(cols, row, snapCols)[m];
    }
  }

  // ------------------------------------------------------------------------ UPDATE

  ghost predicate Named(names: seq<string>, col: string) {
    exists k | 0 <= k < |names| :: EqualFold(names[k], col)
  }

  /** The rows agree on every column not named. */
  ghost predicate SameElsewhere(cols: seq<string>, a: Row, b: Row, names: seq<string>) {
    |a| == |b| == |cols| && forall j | 0 <= j < |cols| :: Named(names, cols[j]) || a[j] == b[j]
  }

  /** No key cell is NULL and no two rows carry the same key. */
  ghost predicate PrimaryKey(t: Table, pkCols: seq<string>)
    requires Aligned(t.cols, t.rows) && AllPresent(t.cols, pkCols)
  {
    && (forall i, k | 0 <= i < |t.rows| && 0 <= k < |pkCols| :: t.rows[i][ColumnIndex(t.cols, pkCols[k])] != Null)
    && (forall i, j | 0 <= i < j < |t.rows| :: Project(t.cols, t.rows[i], pkCols) != Project(t.cols, t.rows[j], pkCols))
  }

  /** after is what an UPDATE may leave of before: only named columns differ, only in rows at these positions. */
  ghost predicate UpdatedOnly(before: Table, after: Table, names: seq<string>, positions: seq<nat>) {
    && after.name == before.name && after.cols == before.cols && |after.rows| == |before.rows|
    && forall i | 0 <= i < |before.rows| ::
        after.rows[i] == before.rows[i]
        || (i in positions && SameElsewhere(before.cols, before.rows[i], after.rows[i], names))
  }

  /** Writing a row's own values over the named columns of a row that agrees elsewhere gives that row. */
  lemma {:induction false} AssignRestores(cols: seq<string>, original: Row, current: Row, names: seq<string>)
    requires DistinctFold(cols) && AllPresent(cols, names)
    requires |original| == |current| == |cols|
    ensures forall j :: 0 <= j < |cols| ==>
      Assign(cols, current, Settings(names, cols, original))[j] == if Named(names, cols[j]) then original[j] else current[j]
  {
    if names != [] {
      var init, last := names[..|names| - 1], names[|names| - 1];
      assert forall k :: 0 <= k < |init| ==> init[k] == names[k];
      AssignRestores(cols, original, current, init);
      var all := Settings(names, cols, original);
      assert all[..|all| - 1] == Settings(init, cols, original);
      forall j | 0 <= j < |cols|
        ensures Assign(cols, current, all)[j] == if Named(names, cols[j]) then original[j] else current[j]
      {
        IndexOfColumn(cols, j, last);
        NamedSnoc(names, cols[j]);
      }
    }
  }

  lemma NamedSnoc(names: seq<string>, col: string)
    requires names != []
    ensures Named(names, col) <==> Named(names[..|names| - 1], col) || EqualFold(names[|names| - 1], col)
  {
    var init := names[..|names| - 1];
    if Named(names, col) {
      var k :| 0 <= k < |names| && EqualFold(names[k], col);
      assert k < |init| ==> EqualFold(init[k], col);
    }
    if Named(init, col) {
      var k :| 0 <= k < |init| && EqualFold(init[k], col);
      assert EqualFold(names[k], col);
    }
  }

  lemma NamedKeyIsShared(names: seq<string>, pkCols: seq<string>, k: nat, col: string)
    requires k < |pkCols|
    ensures Named(names, col) && EqualFold(col, pkCols[k]) ==> ShareName(pkCols, names)
  {
    if Named(names, col) && EqualFold(col, pkCols[k]) {
      var m :| 0 <= m < |names| && EqualFold(names[m], col);
      assert EqualFold(pkCols[k], names[m]);
    }
  }

  /** Changing other columns leaves the key alone. */
  lemma KeyUntouched(cols: seq<string>, a: Row, b: Row, names: seq<string>, pkCols: seq<string>)
    requires AllPresent(cols, pkCols) && SameElsewhere(cols, a, b, names)
    requires !ShareName(pkCols, names)
    ensures Project(cols, a, pkCols) == Project(cols, b, pkCols)
  {
    forall k | 0 <= k < |pkCols| ensures Project(cols, a, pkCols)[k] == Project(cols, b, pkCols)[k] {
      NamedKeyIsShared(names, pkCols, k, cols[ColumnIndex(cols, pkCols[k])]);
    }
  }

  lemma KeysMatchMeansSameKey(cols: seq<string>, row: Row, original: Row, pkCols: seq<string>)
    requires AllPresent(cols, pkCols) && |row| == |original| == |cols|
    requires forall k | 0 <= k < |pkCols| :: original[ColumnIndex(cols, pkCols[k])] != Null
    ensures KeysMatch(cols, row, Settings(pkCols, cols, original))
      <==> Project(cols, row, pkCols) == Project(cols, original, pkCols)
  {
    var keys := Settings(pkCols, cols, original);
    var a, b := Project(cols, row, pkCols), Project(cols, original, pkCols);
    forall k | 0 <= k < |keys| ensures KeyMatches(cols, row, keys[k]) <==> a[k] == b[k] {
      assert keys[k] == Setting(pkCols[k], b[k]);
    }
    if KeysMatch(cols, row, keys) {
      assert forall k :: 0 <= k < |keys| ==> KeyMatches(cols, row, keys[k]) && a[k] == b[k];
    }
  }

  /** The undo statement of a row finds that row and no other, also after the UPDATE. */
  lemma KeyFindsItsRow(before: Table, row: Row, i: nat, at: nat, names: seq<string>, pkCols: seq<string>)
    requires TableOk(before) && i < |before.rows| && at < |before.rows|
    requires AllPresent(before.cols, pkCols) && PrimaryKey(before, pkCols)
    requires !ShareName(pkCols, names) && SameElsewhere(before.cols, before.rows[i], row, names)
    ensures KeysMatch(before.cols, row, Settings(pkCols, before.cols, before.rows[at])) <==> i == at
  {
    KeyUntouched(before.cols, before.rows[i], row, names, pkCols);
    KeysMatchMeansSameKey(before.cols, row, before.rows[at], pkCols);
  }

  ghost function UndoOf(before: Table, names: seq<string>, pkCols: seq<string>, at: nat): Stmt
    requires Aligned(before.cols, before.rows) && AllPresent(before.cols, names) && AllPresent(before.cols, pkCols)
    requires at < |before.rows|
  {
    Update(before.name, Settings(names, before.cols, before.rows[at]), Settings(pkCols, before.cols, before.rows[at]))
  }

  /** The undo script written directly from the rows at these positions. */
  ghost function DirectScript(before: Table, names: seq<string>, pkCols: seq<string>, positions: seq<nat>): (r: seq<Stmt>)
    requires Aligned(before.cols, before.rows) && AllPresent(before.cols, names) && AllPresent(before.cols, pkCols)
    requires forall m | 0 <= m < |positions| :: positions[m] < |before.rows|
    ensures |r| == |positions|
    ensures forall m :: 0 <= m < |positions| ==> r[m] == UndoOf(before, names, pkCols, positions[m])
  {
    seq(|positions|, m requires 0 <= m < |positions| => UndoOf(before, names, pkCols, positions[m]))
  }

  /** One undo statement puts its row back and touches no other. */
  lemma UndoOneRow(before: Table, after: Table, names: seq<string>, pkCols: seq<string>, positions: seq<nat>)
    requires TableOk(before) && positions != []
    requires forall m | 0 <= m < |positions| :: positions[m] < |before.rows|
    requires AllPresent(before.cols, names) && AllPresent(before.cols, pkCols) && PrimaryKey(before, pkCols)
    requires !ShareName(pkCols, names)
    requires UpdatedOnly(before, after, names, positions)
    ensures Aligned(after.cols, after.rows)
    ensures var r := Run(after, DirectScript(before, names, pkCols, positions)[0]);
      r.Some? && UpdatedOnly(before, r.value, names, positions[1..])
  {
    var cols, at := before.cols, positions[0];
    var sets, keys := Settings(names, cols, before.rows[at]), Settings(pkCols, cols, before.rows[at]);
    forall i | 0 <= i < |before.rows| ensures SameElsewhere(cols, before.rows[i], after.rows[i], names) {}
    var rows := UpdatedRows(after, sets, keys);
    forall i | 0 <= i < |before.rows|
      ensures rows[i] == before.rows[i]
        || (i in positions[1..] && SameElsewhere(cols, before.rows[i], rows[i], names))
    {
      KeyFindsItsRow(before, after.rows[i], i, at, names, pkCols);
      if i == at {
        AssignRestores(cols, before.rows[at], after.rows[at], names);
        assert rows[i] == before.rows[i];
      } else {
        assert i in positions ==> i in positions[1..];
      }
    }
    assert AllPresent(cols, SettingNames(sets)) && AllPresent(cols, SettingNames(keys));
  }

  /** Running the whole script gives back the original table. */
  lemma {:induction false} DirectScriptRestores(before: Table, after: Table, names: seq<string>, pkCols: seq<string>,
                                                   positions: seq<nat>)
    requires TableOk(before)
    requires forall m | 0 <= m < |positions| :: positions[m] < |before.rows|
    requires AllPresent(before.cols, names) && AllPresent(before.cols, pkCols) && PrimaryKey(before, pkCols)
    requires !ShareName(pkCols, names)
    requires UpdatedOnly(before, after, names, positions)
    ensures Aligned(after.cols, after.rows)
    ensures RunAll(after, DirectScript(before, names, pkCols, positions)) == Some(before)
    decreases |positions|
  {
    if positions == [] {
      assert after.rows == before.rows;
    } else {
      UndoOneRow(before, after, names, pkCols, positions);
      var script := DirectScript(before, names, pkCols, positions);
      var next := Run(after, script[0]).value;
      DirectScriptRestores(before, next, names, pkCols, positions[1..]);
      assert script[1..] == DirectScript(before, names, pkCols, positions[1..]);
    }
  }

  // ---- the other direction: nothing else is restored

  /** Tables of the same shape. */
  ghost predicate SameShape(before: Table, after: Table) {
    after.name == before.name && after.cols == before.cols && |after.rows| == |before.rows| && Aligned(after.cols, after.rows)
  }

  /** Running the script never changes a column that is not named. */
  lemma {:induction false} ScriptKeepsOthers(before: Table, t: Table, names: seq<string>, pkCols: seq<string>, positions: seq<nat>)
    requires TableOk(before) && SameShape(before, t)
    requires forall m | 0 <= m < |positions| :: positions[m] < |before.rows|
    requires AllPresent(before.cols, names) && AllPresent(before.cols, pkCols)
    ensures var r := RunAll(t, DirectScript(before, names, pkCols, positions));
      && r.Some? && SameShape(before, r.value)
      && forall i | 0 <= i < |t.rows| :: SameElsewhere(before.cols, t.rows[i], r.value.rows[i], names)
    decreases |positions|
  {
    if positions != [] {
      var script := DirectScript(before, names, pkCols, positions);
      var next := Run(t, script[0]);
      StatementKeepsOthers(before, t, names, pkCols, positions[0]);
      ScriptKeepsOthers(before, next.value, names, pkCols, positions[1..]);
      assert script[1..] == DirectScript(before, names, pkCols, positions[1..]);
    }
  }

  lemma StatementKeepsOthers(before: Table, t: Table, names: seq<string>, pkCols: seq<string>, at: nat)
    requires TableOk(before) && SameShape(before, t) && at < |before.rows|
    requires AllPresent(before.cols, names) && AllPresent(before.cols, pkCols)
    ensures var r := Run(t, UndoOf(before, names, pkCols, at));
      && r.Some? && SameShape(before, r.value)
      && forall i | 0 <= i < |t.rows| :: SameElsewhere(before.cols, t.rows[i], r.value.rows[i], names)
  {
    var cols := before.cols;
    var sets, keys := Settings(names, cols, before.rows[at]), Settings(pkCols, cols, before.rows[at]);
    assert AllPresent(cols, SettingNames(sets)) && AllPresent(cols, SettingNames(keys));
    forall i | 0 <= i < |t.rows| ensures SameElsewhere(cols, t.rows[i], UpdatedRows(t, sets, keys)[i], names) {
      AssignRestores(cols, before.rows[at], t.rows[i], names);
    }
  }

  /** While all rows agree with the original outside the named columns, a row that is not addressed stays. */
  lemma {:induction false} UnaddressedRowStays(before: Table, t: Table, names: seq<string>, pkCols: seq<string>, positions: seq<nat>, i: nat)
    requires TableOk(before) && SameShape(before, t)
    requires forall m | 0 <= m < |positions| :: positions[m] < |before.rows|
    requires AllPresent(before.cols, names) && AllPresent(before.cols, pkCols) && PrimaryKey(before, pkCols)
    requires !ShareName(pkCols, names)
    requires i < |before.rows| && i !in positions && SameElsewhere(before.cols, before.rows[i], t.rows[i], names)
    ensures var r := RunAll(t, DirectScript(before, names, pkCols, positions));
      r.Some? && |r.value.rows| == |t.rows| && r.value.rows[i] == t.rows[i]
    decreases |positions|
  {
    if positions != [] {
      var script := DirectScript(before, names, pkCols, positions);
      StatementKeepsOthers(before, t, names, pkCols, positions[0]);
      KeyFindsItsRow(before, t.rows[i], i, positions[0], names, pkCols);
      var next := Run(t, script[0]).value;
      assert next.rows[i] == t.rows[i];
      UnaddressedRowStays(before, next, names, pkCols, positions[1..], i);
      assert script[1..] == DirectScript(before, names, pkCols, positions[1..]);
    }
  }

  /** The script gives back the original table exactly if nothing but named columns of addressed rows differs. */
  lemma DirectScriptRestoresIff(before: Table, after: Table, names: seq<string>, pkCols: seq<string>, positions: seq<nat>)
    requires TableOk(before) && SameShape(before, after)
    requires forall m | 0 <= m < |positions| :: positions[m] < |before.rows|
    requires AllPresent(before.cols, names) && AllPresent(before.cols, pkCols) && PrimaryKey(before, pkCols)
    requires !ShareName(pkCols, names)
    ensures RunAll(after, DirectScript(before, names, pkCols, positions)) == Some(before)
      <==> UpdatedOnly(before, after, names, positions)
  {
    if UpdatedOnly(before, after, names, positions) {
      DirectScriptRestores(before, after, names, pkCols, positions);
    }
    if RunAll(after, DirectScript(before, names, pkCols, positions)) == Some(before) {
      ScriptKeepsOthers(before, after, names, pkCols, positions);
      forall i | 0 <= i < |before.rows|
        ensures after.rows[i] == before.rows[i]
          || (i in positions && SameElsewhere(before.cols, before.rows[i], after.rows[i], names))
      {
        assert SameElsewhere(before.cols, after.rows[i], before.rows[i], names);
        if i !in positions { UnaddressedRowStays(before, after, names, pkCols, positions, i); }
      }
    }
  }

  /** snap holds the rows of before at these positions, as a SELECT of snapCols returned them. */
  ghost predicate SnapshotOf(driver: string, before: Table, snapCols: seq<string>, snap: seq<Row>, positions: seq<nat>)
    requires Aligned(before.cols, before.rows)
  {
    && AllPresent(before.cols, snapCols) && Aligned(snapCols, snap) && |snap| == |positions|
    && forall m | 0 <= m < |snap| ::
        positions[m] < |before.rows|
        && StoredCells(driver, snap[m]) == Project(before.cols, before.rows[positions[m]], snapCols)
  }

  lemma PlanIsDirect(driver: string, p: Parser.ParsedDML, before: Table, snapCols: seq<string>, pkCols: seq<string>,
                     snap: seq<Row>, positions: seq<nat>)
    requires TableOk(before) && SnapshotOf(driver, before, snapCols, snap, positions)
    requires p.table == before.name && Undoable(p, snapCols, pkCols)
    ensures AllPresent(before.cols, p.setCols) && AllPresent(before.cols, pkCols)
    ensures StoredScript(driver, UpdatePlan(p, snapCols, pkCols, snap)) == DirectScript(before, p.setCols, pkCols, positions)
  {
    var cols := before.cols;
    forall k | 0 <= k < |p.setCols + pkCols| ensures ColumnIndex(cols, (p.setCols + pkCols)[k]) >= 0 {
      var name := (p.setCols + pkCols)[k];
      IndexIgnoresCase(cols, snapCols[ColumnIndex(snapCols, name)], name);
    }
    assert forall k :: 0 <= k < |p.setCols| ==> p.setCols[k] == (p.setCols + pkCols)[k];
    assert forall k :: 0 <= k < |pkCols| ==> pkCols[k] == (p.setCols + pkCols)[|p.setCols| + k];
    forall m | 0 <= m < |snap|
      ensures StoredStmt(driver, UpdatePlan(p, snapCols, pkCols, snap)[m]) == UndoOf(before, p.setCols, pkCols, positions[m])
    {
      SettingsFromSnapshot(driver, cols, before.rows[positions[m]], snapCols, snap[m], p.setCols);
      SettingsFromSnapshot(driver, cols, before.rows[positions[m]], snapCols, snap[m], pkCols);
    }
  }

  /**
   Undoing an UPDATE. Reading the generated text and running it gives back the table from before exactly
   if the statement changed nothing but reported SET columns, in snapshotted rows. The snapshot may hold
   more rows than were changed, as it does when ORDER BY and LIMIT were dropped. Only a statement without
   SET columns gets a text nothing can be read from.
   */
  lemma RollbackUndoesUpdate(driver: string, p: Parser.ParsedDML, before: Table, after: Table,
                             snapCols: seq<string>, pkCols: seq<string>, snap: seq<Row>, positions: seq<nat>)
    requires TableOk(before) && SnapshotOf(driver, before, snapCols, snap, positions)
    requires p.verb == "UPDATE" && p.table == before.name
    requires Plan(p, snapCols, pkCols, snap).Some?
    requires AllPresent(before.cols, pkCols) && PrimaryKey(before, pkCols)
    requires SameShape(before, after)
    ensures var script := Read(driver, UndoText(driver, Plan(p, snapCols, pkCols, snap).value));
      && (script.Some? <==> p.setCols != [])
      && (script.Some? ==>
          (RunAll(after, script.value) == Some(before) <==> UpdatedOnly(before, after, p.setCols, positions)))
  {
    PlanIsDirect(driver, p, before, snapCols, pkCols, snap, positions);
    PlanIsComplete(p, snapCols, pkCols, snap);
    UndoTextReadsBack(driver, Plan(p, snapCols, pkCols, snap).value);
    DirectScriptRestoresIff(before, after, p.setCols, pkCols, positions);
  }

  /**
   From snapshot to undo. On the columns BuildSnapshotSQL selects, an UPDATE with a usable primary key
   that it does not set is never refused, and its undo text restores the table.
   */
  lemma SnapshotUndoesUpdate(driver: string, p: Parser.ParsedDML, before: Table, after: Table, pkCols: seq<string>,
                             snap: seq<Row>, positions: seq<nat>)
    requires TableOk(before) && snap != [] && SnapshotOf(driver, before, SnapshotColumns(pkCols, p.setCols), snap, positions)
    requires p.verb == "UPDATE" && p.table == before.name && p.setCols != []
    requires pkCols != [] && !ShareName(pkCols, p.setCols)
    requires AllPresent(before.cols, pkCols) && PrimaryKey(before, pkCols)
    requires SameShape(before, after)
    ensures var plan := Plan(p, SnapshotColumns(pkCols, p.setCols), pkCols, snap);
      && plan.Some?
      && var script := Read(driver, UndoText(driver, plan.value));
         script.Some? && (RunAll(after, script.value) == Some(before) <==> UpdatedOnly(before, after, p.setCols, positions))
  {
    SnapshotNeverMisses(p, pkCols, snap);
    RollbackUndoesUpdate(driver, p, before, after, SnapshotColumns(pkCols, p.setCols), pkCols, snap, positions);
  }

  // ------------------------------------------------------------------------ DELETE

  lemma InsertRestoresRow(cols: seq<string>, row: Row, snapCols: seq<string>)
    requires DistinctFold(cols) && |row| == |cols|
    requires AllPresent(cols, snapCols) && AllPresent(snapCols, cols)
    ensures InsertedRow(cols, snapCols, Project(cols, row, snapCols)) == row
  {
    forall j | 0 <= j < |cols| ensures InsertedRow(cols, snapCols, Project(cols, row, snapCols))[j] == row[j] {
      var i := ColumnIndex(snapCols, cols[j]);
      IndexIgnoresCase(cols, snapCols[i], cols[j]);
      IndexOfColumn(cols, j, cols[j]);
    }
  }

  ghost function Inserts(t: Table, snapCols: seq<string>, rows: seq<Row>): (r: seq<Stmt>)
    requires AllPresent(t.cols, snapCols) && Aligned(t.cols, rows)
    ensures |r| == |rows|
    ensures forall m :: 0 <= m < |rows| ==> r[m] == Insert(t.name, snapCols, Project(t.cols, rows[m], snapCols))
  {
    seq(|rows|, m requires 0 <= m < |rows| => Insert(t.name, snapCols, Project(t.cols, rows[m], snapCols)))
  }

  lemma {:induction false} InsertsAppend(t: Table, snapCols: seq<string>, rows: seq<Row>)
    requires DistinctFold(t.cols) && Aligned(t.cols, t.rows) && Aligned(t.cols, rows)
    requires AllPresent(t.cols, snapCols) && AllPresent(snapCols, t.cols)
    ensures RunAll(t, Inserts(t, snapCols, rows)) == Some(t.(rows := t.rows + rows))
    decreases |rows|
  {
    if rows == [] {
      assert t.rows + rows == t.rows;
    } else {
      InsertRestoresRow(t.cols, rows[0], snapCols);
      var next := t.(rows := t.rows + [rows[0]]);
      InsertsAppend(next, snapCols, rows[1..]);
      assert Inserts(t, snapCols, rows)[1..] == Inserts(next, snapCols, rows[1..]);
      assert t.rows + [rows[0]] + rows[1..] == t.rows + rows;
    }
  }

  /** The DELETE snapshot lists every column, in whatever order and spelling. */
  ghost predicate FullSnapshot(driver: string, t: Table, snapCols: seq<string>, snap: seq<Row>, rows: seq<Row>) {
    && AllPresent(t.cols, snapCols) && AllPresent(snapCols, t.cols)
    && Aligned(snapCols, snap) && Aligned(t.cols, rows) && |snap| == |rows|
    && forall m | 0 <= m < |snap| :: StoredCells(driver, snap[m]) == Project(t.cols, rows[m], snapCols)
  }

  /** Reading and running the undo text of a DELETE adds back exactly the snapshotted rows. */
  lemma DeleteUndoAppends(driver: string, p: Parser.ParsedDML, after: Table, snapCols: seq<string>, snap: seq<Row>, rows: seq<Row>)
    requires TableOk(after) && after.cols != []
    requires FullSnapshot(driver, after, snapCols, snap, rows) && snap != []
    requires p.verb == "DELETE" && p.table == after.name
    ensures Plan(p, snapCols, [], snap) == Some(DeletePlan(p.table, snapCols, snap))
    ensures var script := Read(driver, UndoText(driver, DeletePlan(p.table, snapCols, snap)));
      script.Some? && RunAll(after, script.value) == Some(after.(rows := after.rows + rows))
  {
    var plan := DeletePlan(p.table, snapCols, snap);
    assert snapCols != [] by { assert ColumnIndex(snapCols, after.cols[0]) >= 0; }
    PlanIsComplete(p, snapCols, [], snap);
    UndoTextReadsBack(driver, plan);
    forall m | 0 <= m < |snap| ensures StoredScript(driver, plan)[m] == Inserts(after, snapCols, rows)[m] {}
    assert StoredScript(driver, plan) == Inserts(after, snapCols, rows);
    InsertsAppend(after, snapCols, rows);
  }

  lemma EqualInSize(a: multiset<Row>, b: multiset<Row>)
    requires a <= b
    ensures a == b <==> |a| == |b|
  {
    assert b == a + (b - a);
    if |a| == |b| { assert b - a == multiset{}; }
  }

  /**
   Undoing a DELETE that removed some of the snapshotted rows: the undo puts every snapshotted row back,
   so the surviving ones are there twice; the table is restored exactly if as many rows were deleted as
   the snapshot holds.
   */
  lemma RollbackUndoesDelete(driver: string, p: Parser.ParsedDML, before: Table, after: Table, deleted: multiset<Row>,
                             snapCols: seq<string>, snap: seq<Row>, rows: seq<Row>)
    requires TableOk(after) && before.cols == after.cols != []
    requires multiset(before.rows) == multiset(after.rows) + deleted && deleted <= multiset(rows)
    requires FullSnapshot(driver, after, snapCols, snap, rows) && snap != []
    requires p.verb == "DELETE" && p.table == after.name
    ensures var script := Read(driver, UndoText(driver, DeletePlan(p.table, snapCols, snap)));
      && script.Some? && RunAll(after, script.value).Some?
      && var restored := multiset(RunAll(after, script.value).value.rows);
         && restored == multiset(before.rows) + (multiset(rows) - deleted)
         && (restored == multiset(before.rows) <==> |deleted| == |rows|)
  {
    DeleteUndoAppends(driver, p, after, snapCols, snap, rows);
    assert multiset(after.rows + rows) == multiset(after.rows) + multiset(rows);
    var surplus := multiset(rows) - deleted;
    assert multiset(rows) == deleted + surplus;
    assert multiset(after.rows) + multiset(rows) == multiset(before.rows) + surplus;
    if multiset(before.rows) + surplus == multiset(before.rows) {
      assert surplus == (multiset(before.rows) + surplus) - multiset(before.rows);
    }
    EqualInSize(deleted, multiset(rows));
    assert |multiset(rows)| == |rows|;
  }
}
