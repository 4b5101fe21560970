/**
 The analyzer as a whole: a printed statement is parsed, its rows are snapshotted, it runs, and the
 generated undo text is read and run. Which rows a predicate selects is an unknown function; what the
 statement itself may do is limited only by its own predicate, because ORDER BY and LIMIT can make it
 stop at any of the selected rows.
 */
module RollbackEndToEnd {
  import opened Text
  import Scanner
  import WhereClause
  import Parser
  import opened CommentStripper
  import opened ParserRoundTrip
  import opened ParserComments
  import opened SqlBuild
  import opened Rollback
  import opened RollbackReader
  import RollbackRoundTrip
  import opened RollbackRestore

  /** Does the row satisfy the predicate? */
  type Selects = (string, Row) -> bool

  /** The rows a snapshot query with the WHERE suffix of p returns. */
  predicate Snapshotted(p: Parser.ParsedDML, selects: Selects, row: Row) {
    p.hasWhere && p.whereClause != "" ==> selects(p.whereClause, row)
  }

  /** That is what the printed snapshot query asks for. */
  lemma SnapshotQueryAsksFor(driver: string, p: Parser.ParsedDML, pkCols: seq<string>, selects: Selects, row: Row)
    requires p.verb != "DELETE" ==> SnapshotColumns(pkCols, p.setCols) != []
    ensures var q := ReadSelect(driver, SnapshotQuery(driver, p, pkCols));
      && q.Some? && q.value.table == p.table
      && (Snapshotted(p, selects, row) <==> (q.value.predicate_.Some? ==> selects(q.value.predicate_.value, row)))
  {
    RollbackRoundTrip.SnapshotReadsBack(driver, p, pkCols);
  }

  /** The rows the statement is about. */
  predicate Meant(d: Dml, selects: Selects, row: Row) {
    FilterOf(d).Some? ==> selects(FilterOf(d).value.predicate_, row)
  }

  /** The parsed statement selects the rows the printed one is about, ORDER BY and LIMIT left aside. */
  lemma SnapshotIsMeant(text: string, d: Dml, selects: Selects, row: Row)
    requires WellFormed(d) && Spells(text, d) && Acceptable(text)
    ensures Snapshotted(Parser.ParseDML(text), selects, row) <==> Meant(d, selects, row)
  {
    ParseUndoesPrint(text, d);
    assert Parser.ParseDML(text).(setCols := []).whereClause == Parser.ParseDML(text).whereClause;
    assert Parser.ParseDML(text).(setCols := []).hasWhere == Parser.ParseDML(text).hasWhere;
  }

  /** The snapshot query asks for exactly the rows the statement is about. */
  ghost predicate SnapshotRight(p: Parser.ParsedDML, d: Dml, selects: Selects) {
    forall row: Row :: Snapshotted(p, selects, row) <==> Meant(d, selects, row)
  }

  /** An oracle that tells the parsed predicate from the printed one. */
  function Telling(p: Parser.ParsedDML): Selects {
    (w: string, row: Row) => w == p.whereClause
  }

  /** Under it a statement with a comment mark in its predicate is about no row, and every row is snapshotted. */
  lemma MarkMisleadsSnapshot(d: Dml, row: Row)
    requires WellFormed(d) && FilterOf(d).Some? && !Uncommented(FilterOf(d).value.predicate_)
    ensures var p := Parser.ParseDML(Print(d)); Snapshotted(p, Telling(p), row) && !Meant(d, Telling(p), row)
  {
    PredicateIsUncommented(Print(d));
  }

  /** The snapshot of a DELETE is right, whatever the predicates select, exactly if its own holds no comment mark. */
  lemma SnapshotRightIff(d: Dml)
    requires d.Delete? && WellFormed(d) && d.rows.tail == "" && Acceptable(Print(d))
    ensures (forall selects: Selects :: SnapshotRight(Parser.ParseDML(Print(d)), d, selects))
      <==> Uncommented(d.rows.predicate_)
  {
    DeleteReadIff(d);
    var p := Parser.ParseDML(Print(d));
    if Uncommented(d.rows.predicate_) {
      forall selects: Selects, row: Row ensures Snapshotted(p, selects, row) <==> Meant(d, selects, row) {
        SnapshotIsMeant(Print(d), d, selects, row);
      }
    } else {
      MarkMisleadsSnapshot(d, []);
      assert !SnapshotRight(p, d, Telling(p));
    }
  }

  // ------------------------------------------------------------------------ UPDATE

  /** The positions are those of the snapshotted rows. */
  ghost predicate SnapshotPositions(t: Table, p: Parser.ParsedDML, selects: Selects, positions: seq<nat>) {
    forall i: nat :: i in positions <==> i < |t.rows| && Snapshotted(p, selects, t.rows[i])
  }

  /** What an UPDATE may leave: in some of the rows it is about, other values in columns it sets. */
  ghost predicate MayLeave(d: Dml, selects: Selects, before: Table, after: Table)
    requires d.Update?
  {
    && SameShape(before, after)
    && forall i | 0 <= i < |before.rows| ::
        after.rows[i] == before.rows[i]
        || (Meant(d, selects, before.rows[i]) && SameElsewhere(before.cols, before.rows[i], after.rows[i], Columns(d.sets)))
  }

  /** Every cell that differs lies in a reported column. */
  ghost predicate ChangesReported(before: Table, after: Table, reported: seq<string>)
    requires SameShape(before, after)
  {
    forall i | 0 <= i < |before.rows| :: SameElsewhere(before.cols, before.rows[i], after.rows[i], reported)
  }

  lemma ReportedChangesOnly(text: string, d: Dml, selects: Selects, before: Table, after: Table, positions: seq<nat>)
    requires d.Update? && WellFormed(d) && Spells(text, d) && Acceptable(text)
    requires TableOk(before) && MayLeave(d, selects, before, after)
    requires SnapshotPositions(before, Parser.ParseDML(text), selects, positions)
    ensures var reported := Parser.ParseDML(text).setCols;
      UpdatedOnly(before, after, reported, positions) <==> ChangesReported(before, after, reported)
  {
    var p := Parser.ParseDML(text);
    forall i | 0 <= i < |before.rows| ensures after.rows[i] == before.rows[i] || i in positions {
      SnapshotIsMeant(text, d, selects, before.rows[i]);
    }
    if UpdatedOnly(before, after, p.setCols, positions) {
      forall i | 0 <= i < |before.rows| ensures SameElsewhere(before.cols, before.rows[i], after.rows[i], p.setCols) {}
    }
  }

  /** With open separators no target is lost, so every change is in a reported column. */
  lemma OpenSeparatorsReportAll(text: string, d: Dml, selects: Selects, before: Table, after: Table)
    requires d.Update? && WellFormed(d) && Spells(text, d) && Acceptable(text) && SeparatorsOpen(d.sets)
    requires TableOk(before) && MayLeave(d, selects, before, after)
    ensures ChangesReported(before, after, Parser.ParseDML(text).setCols)
  {
    var reported := Parser.ParseDML(text).setCols;
    TargetsReported(text, d);
    forall i | 0 <= i < |before.rows| ensures SameElsewhere(before.cols, before.rows[i], after.rows[i], reported) {
      if after.rows[i] != before.rows[i] {
        WiderNames(before.cols, before.rows[i], after.rows[i], Columns(d.sets), reported);
      }
    }
  }

  lemma TargetsReported(text: string, d: Dml)
    requires d.Update? && WellFormed(d) && Spells(text, d) && Acceptable(text) && SeparatorsOpen(d.sets)
    ensures forall k :: 0 <= k < |Columns(d.sets)| ==> Columns(d.sets)[k] in Parser.ParseDML(text).setCols
  {
    UpdateRoundTrip(text, d);
    assert "" + PrintSets(d.sets) == PrintSets(d.sets);
    ClauseColumns("", d.sets);
    ReportedHasTargets(d.sets);
    ColumnsAreTargets(d.sets);
  }

  lemma WiderNames(cols: seq<string>, a: Row, b: Row, names: seq<string>, more: seq<string>)
    requires SameElsewhere(cols, a, b, names) && forall k :: 0 <= k < |names| ==> names[k] in more
    ensures SameElsewhere(cols, a, b, more)
  {
    forall j | 0 <= j < |cols| && Named(names, cols[j]) ensures Named(more, cols[j]) {
      NamedAmong(names, more, cols[j]);
    }
  }

  lemma {:induction false} ColumnsAreTargets(sets: seq<Assignment>)
    ensures |Columns(sets)| == |sets| && forall k :: 0 <= k < |sets| ==> Columns(sets)[k] == sets[k].col
  {
    if sets != [] { ColumnsAreTargets(sets[1..]); }
  }

  lemma NamedAmong(names: seq<string>, more: seq<string>, col: string)
    requires Named(names, col) && forall k :: 0 <= k < |names| ==> names[k] in more
    ensures Named(more, col)
  {
    var k :| 0 <= k < |names| && EqualFold(names[k], col);
    var m :| 0 <= m < |more| && more[m] == names[k];
  }

  /**
   An UPDATE given as text is undone. Parsed, snapshotted on the columns BuildSnapshotSQL selects, run
   with any effect it may have, and undone by reading and running the generated text, it leaves the
   original table exactly if every changed cell lies in a column setColumns reported; and with every
   comma between assignments at raw paren depth 0 it always does.
   */
  lemma UpdateTextIsUndone(driver: string, text: string, d: Dml, selects: Selects, before: Table, after: Table, pkCols: seq<string>,
                           snap: seq<Row>, positions: seq<nat>)
    requires d.Update? && WellFormed(d) && Spells(text, d) && Acceptable(text) && d.table == before.name
    requires TableOk(before) && MayLeave(d, selects, before, after)
    requires SnapshotPositions(before, Parser.ParseDML(text), selects, positions) && positions != []
    requires SnapshotOf(driver, before, SnapshotColumns(pkCols, Parser.ParseDML(text).setCols), snap, positions)
    requires pkCols != [] && !ShareName(pkCols, Parser.ParseDML(text).setCols)
    requires AllPresent(before.cols, pkCols) && PrimaryKey(before, pkCols)
    ensures var p := Parser.ParseDML(text);
      var plan := Plan(p, SnapshotColumns(pkCols, p.setCols), pkCols, snap);
      && plan.Some?
      && var script := Read(driver, UndoText(driver, plan.value));
         && script.Some?
         && (RunAll(after, script.value) == Some(before) <==> ChangesReported(before, after, p.setCols))
         && (SeparatorsOpen(d.sets) ==> RunAll(after, script.value) == Some(before))
  {
    UpdateRoundTrip(text, d);
    FirstTargetReported(d.sets);
    SnapshotUndoesUpdate(driver, Parser.ParseDML(text), before, after, pkCols, snap, positions);
    ReportedChangesOnly(text, d, selects, before, after, positions);
    if SeparatorsOpen(d.sets) { OpenSeparatorsReportAll(text, d, selects, before, after); }
  }

  // ---- what the text alone decides

  /** Every cell the statement may change lies in a snapshotted row and a reported column. */
  ghost predicate EffectsCovered(d: Dml, p: Parser.ParsedDML, selects: Selects, before: Table)
    requires d.Update? && TableOk(before)
  {
    forall i, j | 0 <= i < |before.rows| && 0 <= j < |before.cols| ::
      Meant(d, selects, before.rows[i]) && Named(Columns(d.sets), before.cols[j])
      ==> Snapshotted(p, selects, before.rows[i]) && Named(p.setCols, before.cols[j])
  }

  /** Running the script undoes whatever the statement may leave. */
  ghost predicate UndoesEveryEffect(d: Dml, selects: Selects, before: Table, script: seq<Stmt>)
    requires d.Update?
  {
    forall after | MayLeave(d, selects, before, after) :: RunAll(after, script) == Some(before)
  }

  function Changed(before: Table, i: nat, j: nat): Table
    requires Aligned(before.cols, before.rows) && i < |before.rows| && j < |before.cols|
  {
    var other := if before.rows[i][j] == Null then Int(0) else Null;
    before.(rows := before.rows[i := before.rows[i][j := other]])
  }

  /** An UPDATE may change any one cell of a row it is about and a column it sets. */
  lemma MayChange(d: Dml, selects: Selects, before: Table, i: nat, j: nat)
    requires d.Update? && TableOk(before) && i < |before.rows| && j < |before.cols|
    requires Meant(d, selects, before.rows[i]) && Named(Columns(d.sets), before.cols[j])
    ensures var after := Changed(before, i, j);
      MayLeave(d, selects, before, after) && after.rows[i][j] != before.rows[i][j]
  {
    var after := Changed(before, i, j);
    assert SameElsewhere(before.cols, before.rows[i], after.rows[i], Columns(d.sets));
    assert forall m | 0 <= m < |before.rows| && m != i :: after.rows[m] == before.rows[m];
  }

  lemma CoveredIsUpdatedOnly(d: Dml, p: Parser.ParsedDML, selects: Selects, before: Table, after: Table, positions: seq<nat>)
    requires d.Update? && TableOk(before) && SnapshotPositions(before, p, selects, positions)
    requires EffectsCovered(d, p, selects, before) && MayLeave(d, selects, before, after)
    ensures UpdatedOnly(before, after, p.setCols, positions)
  {
    forall i | 0 <= i < |before.rows| && after.rows[i] != before.rows[i]
      ensures i in positions && SameElsewhere(before.cols, before.rows[i], after.rows[i], p.setCols)
    {
      var j :| 0 <= j < |before.cols| && after.rows[i][j] != before.rows[i][j];
      assert Named(Columns(d.sets), before.cols[j]);
    }
  }

  /**
   The undo text restores the table whatever the UPDATE does, exactly if every cell it may change lies in a
   snapshotted row and a reported column. Nothing is assumed about how the parsed statement came about.
   */
  lemma UndoesEveryEffectIff(driver: string, p: Parser.ParsedDML, d: Dml, selects: Selects, before: Table,
                             pkCols: seq<string>, snap: seq<Row>, positions: seq<nat>)
    requires d.Update? && p.verb == "UPDATE" && p.table == before.name && p.setCols != []
    requires TableOk(before) && SnapshotPositions(before, p, selects, positions) && positions != []
    requires SnapshotOf(driver, before, SnapshotColumns(pkCols, p.setCols), snap, positions)
    requires pkCols != [] && !ShareName(pkCols, p.setCols)
    requires AllPresent(before.cols, pkCols) && PrimaryKey(before, pkCols)
    ensures var plan := Plan(p, SnapshotColumns(pkCols, p.setCols), pkCols, snap);
      && plan.Some?
      && var script := Read(driver, UndoText(driver, plan.value));
         && script.Some?
         && (UndoesEveryEffect(d, selects, before, script.value) <==> EffectsCovered(d, p, selects, before))
  {
    var plan := Plan(p, SnapshotColumns(pkCols, p.setCols), pkCols, snap);
    SnapshotUndoesUpdate(driver, p, before, before, pkCols, snap, positions);
    forall after | SameShape(before, after)
      ensures RunAll(after, Read(driver, UndoText(driver, plan.value)).value) == Some(before)
        <==> UpdatedOnly(before, after, p.setCols, positions)
    {
      SnapshotUndoesUpdate(driver, p, before, after, pkCols, snap, positions);
    }
    FittingScriptUndoesIff(d, p, selects, before, Read(driver, UndoText(driver, plan.value)).value, positions);
  }

  /** The script restores a table exactly if nothing but reported columns of these rows differs. */
  ghost predicate Fits(before: Table, script: seq<Stmt>, names: seq<string>, positions: seq<nat>) {
    forall after | SameShape(before, after) :: RunAll(after, script) == Some(before) <==> UpdatedOnly(before, after, names, positions)
  }

  lemma FittingScriptUndoesIff(d: Dml, p: Parser.ParsedDML, selects: Selects, before: Table, script: seq<Stmt>, positions: seq<nat>)
    requires d.Update? && TableOk(before) && SnapshotPositions(before, p, selects, positions)
    requires Fits(before, script, p.setCols, positions)
    ensures UndoesEveryEffect(d, selects, before, script) <==> EffectsCovered(d, p, selects, before)
  {
    if EffectsCovered(d, p, selects, before) {
      forall after | MayLeave(d, selects, before, after) ensures RunAll(after, script) == Some(before) {
        CoveredIsUpdatedOnly(d, p, selects, before, after, positions);
      }
    }
    if UndoesEveryEffect(d, selects, before, script) {
      forall i, j | 0 <= i < |before.rows| && 0 <= j < |before.cols|
                    && Meant(d, selects, before.rows[i]) && Named(Columns(d.sets), before.cols[j])
        ensures Snapshotted(p, selects, before.rows[i]) && Named(p.setCols, before.cols[j])
      {
        MayChange(d, selects, before, i, j);
        assert UpdatedOnly(before, Changed(before, i, j), p.setCols, positions);
      }
    }
  }

  /** Every set column the table has is reported. */
  ghost predicate TargetsCovered(cols: seq<string>, targets: seq<string>, reported: seq<string>) {
    forall j | 0 <= j < |cols| :: Named(targets, cols[j]) ==> Named(reported, cols[j])
  }

  /** For a text that spells the statement: always undone exactly if every set column the table has is reported. */
  lemma UpdateTextAlwaysUndone(driver: string, text: string, d: Dml, selects: Selects, before: Table, pkCols: seq<string>,
                               snap: seq<Row>, positions: seq<nat>)
    requires d.Update? && WellFormed(d) && Spells(text, d) && Acceptable(text) && d.table == before.name
    requires TableOk(before) && SnapshotPositions(before, Parser.ParseDML(text), selects, positions) && positions != []
    requires SnapshotOf(driver, before, SnapshotColumns(pkCols, Parser.ParseDML(text).setCols), snap, positions)
    requires pkCols != [] && !ShareName(pkCols, Parser.ParseDML(text).setCols)
    requires AllPresent(before.cols, pkCols) && PrimaryKey(before, pkCols)
    ensures var p := Parser.ParseDML(text);
      var plan := Plan(p, SnapshotColumns(pkCols, p.setCols), pkCols, snap);
      && plan.Some?
      && var script := Read(driver, UndoText(driver, plan.value));
         && script.Some?
         && (UndoesEveryEffect(d, selects, before, script.value) <==> TargetsCovered(before.cols, Columns(d.sets), p.setCols))
  {
    UpdateRoundTrip(text, d);
    FirstTargetReported(d.sets);
    UndoesEveryEffectIff(driver, Parser.ParseDML(text), d, selects, before, pkCols, snap, positions);
    forall row: Row ensures Snapshotted(Parser.ParseDML(text), selects, row) <==> Meant(d, selects, row) {
      SnapshotIsMeant(text, d, selects, row);
    }
    CoveredMeansTargets(d, Parser.ParseDML(text), selects, before, positions);
  }

  lemma CoveredMeansTargets(d: Dml, p: Parser.ParsedDML, selects: Selects, before: Table, positions: seq<nat>)
    requires d.Update? && TableOk(before) && SnapshotRight(p, d, selects)
    requires SnapshotPositions(before, p, selects, positions) && positions != []
    ensures EffectsCovered(d, p, selects, before) <==> TargetsCovered(before.cols, Columns(d.sets), p.setCols)
  {
    assert positions[0] in positions;
    assert Meant(d, selects, before.rows[positions[0]]);
  }

  /** Of names that differ from the first one, it names none. */
  lemma FirstNamesNoOther(all: seq<string>, names: seq<string>, k: nat)
    requires DistinctFold(all) && 0 < k < |all|
    ensures Named([all[0]] + names, all[k]) ==> Named(names, all[k])
  {
    if Named([all[0]] + names, all[k]) {
      var m :| 0 <= m < |names| + 1 && EqualFold(([all[0]] + names)[m], all[k]);
      assert m > 0 && names[m - 1] == ([all[0]] + names)[m];
    }
  }

  lemma OthersNameNotFirst(all: seq<string>)
    requires all != [] && DistinctFold(all)
    ensures !Named(all[1..], all[0])
  {
    forall m | 0 <= m < |all[1..]| ensures !EqualFold(all[1..][m], all[0]) { assert all[1..][m] == all[m + 1]; }
  }

  /** If distinct targets are all among those at open separators, no separator is closed. */
  lemma {:induction false} AllOpen(sets: seq<Assignment>, depth: int)
    requires DistinctFold(Columns(sets))
    requires forall k | 0 <= k < |Columns(sets)| :: Named(OpenColumns(sets, depth), Columns(sets)[k])
    ensures OpenColumns(sets, depth) == Columns(sets)
  {
    if sets != [] {
      var all, rest, d := Columns(sets), sets[1..], depth + Balance(sets[0].value);
      assert all[1..] == Columns(rest);
      forall k | 0 <= k < |Columns(rest)| ensures Named(OpenColumns(rest, d), Columns(rest)[k]) {
        assert all[k + 1] == Columns(rest)[k];
        FirstNamesNoOther(all, OpenColumns(rest, d), k + 1);
      }
      AllOpen(rest, d);
      OthersNameNotFirst(all);
    }
  }

  lemma CoveredMeansOpen(cols: seq<string>, sets: seq<Assignment>)
    requires AllPresent(cols, Columns(sets)) && DistinctFold(Columns(sets))
    ensures TargetsCovered(cols, Columns(sets), OpenColumns(sets, 0)) <==> SeparatorsOpen(sets)
  {
    OpenColumnsAreAll(sets);
    var targets, open := Columns(sets), OpenColumns(sets, 0);
    if TargetsCovered(cols, targets, open) {
      forall k | 0 <= k < |targets| ensures Named(open, targets[k]) {
        var j := ColumnIndex(cols, targets[k]);
        assert EqualFold(targets[k], cols[j]);
        var m :| 0 <= m < |open| && EqualFold(open[m], cols[j]);
        assert EqualFold(open[m], targets[k]);
      }
      AllOpen(sets, 0);
    }
  }

  /** With values free of commas and distinct targets that the table has: always undone exactly if the separators are open. */
  lemma CommaFreeUpdateAlwaysUndone(driver: string, text: string, d: Dml, selects: Selects, before: Table, pkCols: seq<string>,
                                    snap: seq<Row>, positions: seq<nat>)
    requires d.Update? && WellFormed(d) && Spells(text, d) && Acceptable(text) && d.table == before.name
    requires NoComma(d.sets) && DistinctFold(Columns(d.sets)) && AllPresent(before.cols, Columns(d.sets))
    requires TableOk(before) && SnapshotPositions(before, Parser.ParseDML(text), selects, positions) && positions != []
    requires SnapshotOf(driver, before, SnapshotColumns(pkCols, Parser.ParseDML(text).setCols), snap, positions)
    requires pkCols != [] && !ShareName(pkCols, Parser.ParseDML(text).setCols)
    requires AllPresent(before.cols, pkCols) && PrimaryKey(before, pkCols)
    ensures var p := Parser.ParseDML(text);
      var plan := Plan(p, SnapshotColumns(pkCols, p.setCols), pkCols, snap);
      && plan.Some?
      && var script := Read(driver, UndoText(driver, plan.value));
         script.Some? && (UndoesEveryEffect(d, selects, before, script.value) <==> SeparatorsOpen(d.sets))
  {
    UpdateTextAlwaysUndone(driver, text, d, selects, before, pkCols, snap, positions);
    UpdateRoundTrip(text, d);
    assert "" + PrintSets(d.sets) == PrintSets(d.sets);
    CommaFreeColumns("", d.sets);
    CoveredMeansOpen(before.cols, d.sets);
  }

  /**
   An UPDATE on one line with a line comment mark in a value is snapshotted with all rows of the table and the
   columns in front of the mark: it is undone, whatever it changes, exactly if it sets no other column of the table.
   */
  lemma CutUpdateAlwaysUndone(driver: string, d: Dml, a: string, b: string, selects: Selects, before: Table,
                              pkCols: seq<string>, snap: seq<Row>, positions: seq<nat>)
    requires d.Update? && WellFormed(d) && Acceptable(Print(d)) && '\n' !in Print(d) && d.table == before.name
    requires PrintSets(d.sets) == a + "--" + b && Uncommented(a + "-") && WhereClause.NoKeyword(a, "WHERE")
    requires Parser.ColumnsOf(a) != [] && TableOk(before) && exists i | 0 <= i < |before.rows| :: Meant(d, selects, before.rows[i])
    requires SnapshotPositions(before, Parser.ParseDML(Print(d)), selects, positions) && positions != []
    requires SnapshotOf(driver, before, SnapshotColumns(pkCols, Parser.ColumnsOf(a)), snap, positions)
    requires pkCols != [] && !ShareName(pkCols, Parser.ColumnsOf(a))
    requires AllPresent(before.cols, pkCols) && PrimaryKey(before, pkCols)
    ensures var p := Parser.ParseDML(Print(d));
      var plan := Plan(p, SnapshotColumns(pkCols, Parser.ColumnsOf(a)), pkCols, snap);
      && plan.Some? && !p.hasWhere
      && var script := Read(driver, UndoText(driver, plan.value));
         && script.Some?
         && (UndoesEveryEffect(d, selects, before, script.value) <==>
             TargetsCovered(before.cols, Columns(d.sets), Parser.ColumnsOf(a)))
  {
    LineMarkCutsUpdate(d, a, b);
    var p := Parser.ParseDML(Print(d));
    UndoesEveryEffectIff(driver, p, d, selects, before, pkCols, snap, positions);
    assert EffectsCovered(d, p, selects, before) <==> TargetsCovered(before.cols, Columns(d.sets), p.setCols);
  }

  // ------------------------------------------------------------------------ DELETE

  /** The rows a snapshot query of the whole table returns, in table order. */
  function SnapshotRows(p: Parser.ParsedDML, selects: Selects, rows: seq<Row>): seq<Row> {
    if rows == [] then []
    else SnapshotRows(p, selects, rows[..|rows| - 1]) +
         if Snapshotted(p, selects, rows[|rows| - 1]) then [rows[|rows| - 1]] else []
  }

  /**
   A DELETE given as text. Its predicate comes back without ORDER BY and LIMIT, so the snapshot holds
   every row the predicate selects; the undo restores the table exactly if that many rows went, and
   otherwise it puts the surviving ones in a second time.
   */
  lemma DeleteTextIsUndone(driver: string, text: string, d: Dml, selects: Selects, before: Table, after: Table, deleted: multiset<Row>,
                           snapCols: seq<string>, snap: seq<Row>, rows: seq<Row>)
    requires !d.Update? && WellFormed(d) && Spells(text, d) && Acceptable(text) && d.table == after.name
    requires TableOk(after) && before.cols == after.cols != []
    requires multiset(rows) == multiset(SnapshotRows(Parser.ParseDML(text), selects, before.rows))
    requires multiset(before.rows) == multiset(after.rows) + deleted && deleted <= multiset(rows)
    requires FullSnapshot(driver, after, snapCols, snap, rows) && snap != []
    ensures var p := Parser.ParseDML(text);
      && p == Expected(d)
      && var plan := Plan(p, snapCols, [], snap);
         && plan.Some?
         && var script := Read(driver, UndoText(driver, plan.value));
            && script.Some? && RunAll(after, script.value).Some?
            && var restored := multiset(RunAll(after, script.value).value.rows);
               && restored == multiset(before.rows) + (multiset(rows) - deleted)
               && (restored == multiset(before.rows) <==> |deleted| == |rows|)
  {
    DeleteRoundTrip(text, d);
    var p := Parser.ParseDML(text);
    DeleteUndoAppends(driver, p, after, snapCols, snap, rows);
    RollbackUndoesDelete(driver, p, before, after, deleted, snapCols, snap, rows);
  }

  // ---- for every oracle

  /** The rows the statement is about, in table order. */
  function MeantRows(d: Dml, selects: Selects, rows: seq<Row>): seq<Row> {
    if rows == [] then []
    else MeantRows(d, selects, rows[..|rows| - 1]) +
         if Meant(d, selects, rows[|rows| - 1]) then [rows[|rows| - 1]] else []
  }

  /** The DELETE ran without a limit: all the rows it is about are gone. */
  ghost predicate AllDeleted(d: Dml, selects: Selects, before: Table, after: Table) {
    && TableOk(after) && after.name == before.name && after.cols == before.cols
    && multiset(before.rows) == multiset(after.rows) + multiset(MeantRows(d, selects, before.rows))
  }

  /** Running the script puts back exactly the rows that were there. */
  ghost predicate PutsBack(driver: string, p: Parser.ParsedDML, before: Table, after: Table, snapCols: seq<string>, snap: seq<Row>)
    requires Aligned(after.cols, after.rows)
  {
    var script := Read(driver, UndoText(driver, DeletePlan(p.table, snapCols, snap)));
    && script.Some? && RunAll(after, script.value).Some?
    && multiset(RunAll(after, script.value).value.rows) == multiset(before.rows)
  }

  /** Whatever snapshot of the parsed predicate is taken, the undo of the unlimited DELETE puts everything back. */
  ghost predicate DeleteUndone(driver: string, p: Parser.ParsedDML, d: Dml, selects: Selects, before: Table) {
    forall after, snapCols, snap, rows |
      AllDeleted(d, selects, before, after) && FullSnapshot(driver, after, snapCols, snap, rows) && snap != []
      && multiset(rows) == multiset(SnapshotRows(p, selects, before.rows)) ::
      PutsBack(driver, p, before, after, snapCols, snap)
  }

  lemma {:induction false} RightRows(p: Parser.ParsedDML, d: Dml, selects: Selects, rows: seq<Row>)
    requires SnapshotRight(p, d, selects)
    ensures SnapshotRows(p, selects, rows) == MeantRows(d, selects, rows)
  {
    if rows != [] { RightRows(p, d, selects, rows[..|rows| - 1]); }
  }

  lemma {:induction false} AllAndNone(p: Parser.ParsedDML, d: Dml, selects: Selects, rows: seq<Row>)
    requires forall row: Row :: Snapshotted(p, selects, row) && !Meant(d, selects, row)
    ensures SnapshotRows(p, selects, rows) == rows && MeantRows(d, selects, rows) == []
  {
    if rows != [] {
      AllAndNone(p, d, selects, rows[..|rows| - 1]);
      assert rows[..|rows| - 1] + [rows[|rows| - 1]] == rows;
    }
  }

  lemma MarkedRows(d: Dml, rows: seq<Row>)
    requires WellFormed(d) && FilterOf(d).Some? && !Uncommented(FilterOf(d).value.predicate_)
    ensures var p := Parser.ParseDML(Print(d));
      SnapshotRows(p, Telling(p), rows) == rows && MeantRows(d, Telling(p), rows) == []
  {
    var p := Parser.ParseDML(Print(d));
    forall row: Row ensures Snapshotted(p, Telling(p), row) && !Meant(d, Telling(p), row) { MarkMisleadsSnapshot(d, row); }
    AllAndNone(p, d, Telling(p), rows);
  }

  lemma RightSnapshotPutsBack(driver: string, p: Parser.ParsedDML, d: Dml, selects: Selects, before: Table)
    requires p.verb == "DELETE" && p.table == before.name && before.cols != [] && SnapshotRight(p, d, selects)
    ensures DeleteUndone(driver, p, d, selects, before)
  {
    RightRows(p, d, selects, before.rows);
    forall after, snapCols, snap, rows |
      AllDeleted(d, selects, before, after) && FullSnapshot(driver, after, snapCols, snap, rows) && snap != []
      && multiset(rows) == multiset(SnapshotRows(p, selects, before.rows))
      ensures PutsBack(driver, p, before, after, snapCols, snap)
    {
      RollbackUndoesDelete(driver, p, before, after, multiset(rows), snapCols, snap, rows);
      assert |multiset(rows)| == |rows|;
    }
  }

  /** The stored cells come back from the driver as they are. */
  ghost predicate InStoredForm(driver: string, rows: seq<Row>) {
    forall i | 0 <= i < |rows| :: StoredCells(driver, rows[i]) == rows[i]
  }

  lemma OwnColumns(cols: seq<string>)
    requires DistinctFold(cols)
    ensures AllPresent(cols, cols) && forall row: Row | |row| == |cols| :: Project(cols, row, cols) == row
  {
    forall j | 0 <= j < |cols| ensures ColumnIndex(cols, cols[j]) == j { IndexOfColumn(cols, j, cols[j]); }
  }

  /** A marked predicate that deletes nothing: the undo puts every row in a second time. */
  lemma MarkPutsBackTooMuch(driver: string, d: Dml, before: Table)
    requires d.Delete? && WellFormed(d) && !Uncommented(d.rows.predicate_) && Acceptable(Print(d))
    requires TableOk(before) && before.name == d.table && before.cols != [] && before.rows != [] && InStoredForm(driver, before.rows)
    ensures var p := Parser.ParseDML(Print(d)); !DeleteUndone(driver, p, d, Telling(p), before)
  {
    var p, rows := Parser.ParseDML(Print(d)), before.rows;
    HeadSurvives(d);
    MarkedRows(d, rows);
    OwnColumns(before.cols);
    assert AllDeleted(d, Telling(p), before, before);
    assert FullSnapshot(driver, before, before.cols, rows, rows);
    RollbackUndoesDelete(driver, p, before, before, multiset{}, before.cols, rows, rows);
    assert !PutsBack(driver, p, before, before, before.cols, rows);
  }

  /**
   When the undo of a DELETE given as text is right. For an unlimited DELETE with a predicate, on any table with a
   row: every deletion is undone, whatever the predicates select, exactly if the predicate holds no comment mark.
   */
  lemma DeleteUndoneIff(driver: string, d: Dml, before: Table)
    requires d.Delete? && WellFormed(d) && d.rows.tail == "" && Acceptable(Print(d))
    requires TableOk(before) && before.name == d.table && before.cols != [] && before.rows != [] && InStoredForm(driver, before.rows)
    ensures (forall selects: Selects :: DeleteUndone(driver, Parser.ParseDML(Print(d)), d, selects, before))
      <==> Uncommented(d.rows.predicate_)
  {
    var p := Parser.ParseDML(Print(d));
    if Uncommented(d.rows.predicate_) {
      SnapshotRightIff(d);
      HeadSurvives(d);
      forall selects: Selects ensures DeleteUndone(driver, p, d, selects, before) {
        RightSnapshotPutsBack(driver, p, d, selects, before);
      }
    } else {
      MarkPutsBackTooMuch(driver, d, before);
    }
  }

  // ------------------------------------------------------------------------ LIMIT

  function LimitTail(n: nat): string {
    "LIMIT" + (" " + Digits(n))
  }

  /** A DELETE of at most n rows, with or without a predicate. */
  function LimitedDelete(table: string, predicate_: Option<string>, n: nat): Dml {
    match predicate_
    case None => DeleteAll(table, LimitTail(n))
    case Some(w) => Dml.Delete(table, Filter(w, LimitTail(n)))
  }

  lemma {:induction false} DigitsAreDigits(n: nat)
    ensures Digits(n) != "" && forall k :: 0 <= k < |Digits(n)| ==> '0' <= Digits(n)[k] <= '9'
  {
    if n >= 10 { DigitsAreDigits(n / 10); }
  }

  /** A LIMIT tail is well-formed, alone and behind any well-formed predicate. */
  lemma LimitTailIsOk(n: nat)
    ensures var t := LimitTail(n); t != "" && Trimmed(t) && StartsTail(t) && WhereClause.NoKeyword(t, "WHERE")
  {
    var t, digits := LimitTail(n), Digits(n);
    DigitsAreDigits(n);
    assert t[5] == ' ' && forall k :: 6 <= k < |t| ==> t[k] == digits[k - 6];
    LimitStands(t);
    forall i: nat ensures !Scanner.KeywordAt(t, "WHERE", i) {
      Scanner.LetterOf(t, "WHERE", i, 0);
      assert i < 5 ==> t[i] == "LIMIT"[i];
    }
    assert !IsSpace(t[|t| - 1]);
  }

  lemma LimitStands(t: string)
    requires |t| > 5 && t[..5] == "LIMIT" && t[5] == ' '
    ensures Scanner.KeywordAt(t, "LIMIT", 0) && !IsSpace(t[0])
  {
    assert forall j :: 0 <= j < 5 ==> t[0 + j] == t[..5][j];
  }

  /** A limited DELETE removes as many of the selected rows as the limit lets it. */
  ghost predicate DeletesUpTo(n: nat, deleted: multiset<Row>, rows: seq<Row>) {
    deleted <= multiset(rows) && |deleted| == if |rows| < n then |rows| else n
  }

  /**
   The failing case, at its input: a DELETE with LIMIT n, with or without WHERE, is undone exactly if no more than
   n rows satisfy its predicate, which the COUNT query of the same parsed statement tells beforehand. With more
   rows, each surviving one is there twice afterwards.
   */
  lemma LimitedDeleteIsUndone(driver: string, text: string, table: string, predicate_: Option<string>, n: nat, selects: Selects,
                              before: Table, after: Table, deleted: multiset<Row>,
                              snapCols: seq<string>, snap: seq<Row>, rows: seq<Row>)
    requires Parser.IsWord(table) && (predicate_.Some? ==> FilterOk(Filter(predicate_.value, "")))
    requires Spells(text, LimitedDelete(table, predicate_, n)) && Acceptable(text)
    requires table == after.name && TableOk(after) && before.cols == after.cols != []
    requires multiset(rows) == multiset(SnapshotRows(Parser.ParseDML(text), selects, before.rows))
    requires multiset(before.rows) == multiset(after.rows) + deleted && DeletesUpTo(n, deleted, rows)
    requires FullSnapshot(driver, after, snapCols, snap, rows) && snap != []
    ensures var p := Parser.ParseDML(text);
      && p.hasWhere == predicate_.Some? && p.whereClause == (if predicate_.Some? then predicate_.value else "")
      && var plan := Plan(p, snapCols, [], snap);
         && plan.Some?
         && var script := Read(driver, UndoText(driver, plan.value));
            && script.Some? && RunAll(after, script.value).Some?
            && var restored := multiset(RunAll(after, script.value).value.rows);
               && (restored == multiset(before.rows) <==> |rows| <= n)
               && restored == multiset(before.rows) + (multiset(rows) - deleted)
  {
    LimitTailIsOk(n);
    DeleteTextIsUndone(driver, text, LimitedDelete(table, predicate_, n), selects, before, after, deleted, snapCols, snap, rows);
  }
}
