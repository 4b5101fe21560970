/**
 Reading the printed undo text gives back exactly the planned statements, in order: no cell value
 and no identifier can end a literal, an identifier or a statement early.
 */
module RollbackRoundTrip {
  import opened Text
  import Parser
  import opened SqlBuild
  import opened Rollback
  import opened RollbackReader
  import opened RollbackLexing

  // ------------------------------------------------------------ tokens of a statement

  function NameItems(names: seq<string>): (r: seq<seq<Token>>)
    ensures |r| == |names| && forall k :: 0 <= k < |names| ==> r[k] == [Ident(names[k])]
  {
    seq(|names|, k requires 0 <= k < |names| => [Ident(names[k])])
  }

  function LiteralItems(driver: string, cells: seq<Cell>): (r: seq<seq<Token>>)
    ensures |r| == |cells| && forall k :: 0 <= k < |cells| ==> r[k] == [LiteralToken(driver, cells[k])]
  {
    seq(|cells|, k requires 0 <= k < |cells| => [LiteralToken(driver, cells[k])])
  }

  function SettingItem(driver: string, s: Setting): seq<Token> {
    [Ident(s.col), Sym('='), LiteralToken(driver, s.value)]
  }

  function SettingItems(driver: string, settings: seq<Setting>): (r: seq<seq<Token>>)
    ensures |r| == |settings| && forall k :: 0 <= k < |settings| ==> r[k] == SettingItem(driver, settings[k])
  {
    seq(|settings|, k requires 0 <= k < |settings| => SettingItem(driver, settings[k]))
  }

  function PrefixTokens(table: string, cols: seq<string>): seq<Token> {
    [Word("INSERT"), Word("INTO")] + [Ident(table)] + [Sym('(')] + JoinTokens(NameItems(cols), Sym(','))
    + [Sym(')'), Word("VALUES")]
  }

  function InsertTokens(driver: string, table: string, cols: seq<string>, values: seq<Cell>): seq<Token> {
    PrefixTokens(table, cols) + [Sym('(')] + JoinTokens(LiteralItems(driver, values), Sym(',')) + [Sym(')'), Sym(';')]
  }

  function UpdateTokens(driver: string, table: string, sets: seq<Setting>, keys: seq<Setting>): seq<Token> {
    [Word("UPDATE")] + [Ident(table)] + [Word("SET")] + JoinTokens(SettingItems(driver, sets), Sym(','))
    + [Word("WHERE")] + JoinTokens(SettingItems(driver, keys), Word("AND")) + [Sym(';')]
  }

  function StmtTokens(driver: string, s: Stmt): seq<Token> {
    match s
    case Insert(table, cols, values) => InsertTokens(driver, table, cols, values)
    case Update(table, sets, keys) => UpdateTokens(driver, table, sets, keys)
  }

  // ------------------------------------------------------------------- text to tokens

  lemma NamesRead(driver: string, names: seq<string>)
    ensures ReadsBefore(driver, Join(Quoted(driver, names), ", "), JoinTokens(NameItems(names), Sym(',')))
  {
    forall k | 0 <= k < |names| ensures ReadsBefore(driver, Quoted(driver, names)[k], NameItems(names)[k]) {
      IdentReads(driver, names[k]);
    }
    CommaReads(driver);
    JoinReads(driver, Quoted(driver, names), NameItems(names), ", ", Sym(','));
  }

  lemma LiteralsRead(driver: string, cells: seq<Cell>)
    ensures ReadsBefore(driver, Join(Literals(driver, cells), ", "), JoinTokens(LiteralItems(driver, cells), Sym(',')))
  {
    forall k | 0 <= k < |cells| ensures ReadsBefore(driver, Literals(driver, cells)[k], LiteralItems(driver, cells)[k]) {
      LiteralReads(driver, cells[k]);
    }
    CommaReads(driver);
    JoinReads(driver, Literals(driver, cells), LiteralItems(driver, cells), ", ", Sym(','));
  }

  lemma EqualsReads(driver: string)
    ensures Delim(" = ") && Reads(driver, " = ", [Sym('=')])
  {
    SymReads(driver, '=');
    BlankReads(driver, ' ');
    assert [] + [Sym('=')] == [Sym('=')] == [Sym('=')] + [];
    ClosedThenClosed(driver, " ", [], "=", [Sym('=')]);
    ClosedThenClosed(driver, " " + "=", [Sym('=')], " ", []);
    assert " " + "=" + " " == " = ";
  }

  lemma SettingReads(driver: string, s: Setting)
    ensures ReadsBefore(driver, SettingText(driver, s), SettingItem(driver, s))
  {
    IdentReads(driver, s.col);
    EqualsReads(driver);
    LiteralReads(driver, s.value);
    OpenThenClosed(driver, QuoteIdent(driver, s.col), [Ident(s.col)], " = ", [Sym('=')]);
    ClosedThenOpen(driver, QuoteIdent(driver, s.col) + " = ", [Ident(s.col)] + [Sym('=')],
      FormatLiteral(driver, s.value), [LiteralToken(driver, s.value)]);
    assert [Ident(s.col)] + [Sym('=')] + [LiteralToken(driver, s.value)] == SettingItem(driver, s);
  }

  lemma SettingsRead(driver: string, settings: seq<Setting>, sep: string, sepToken: Token)
    requires Delim(sep) && Reads(driver, sep, [sepToken])
    ensures ReadsBefore(driver, Join(SettingTexts(driver, settings), sep), JoinTokens(SettingItems(driver, settings), sepToken))
  {
    forall k | 0 <= k < |settings| ensures ReadsBefore(driver, SettingTexts(driver, settings)[k], SettingItems(driver, settings)[k]) {
      SettingReads(driver, settings[k]);
    }
    JoinReads(driver, SettingTexts(driver, settings), SettingItems(driver, settings), sep, sepToken);
  }

  lemma InsertIntoReads(driver: string)
    ensures Reads(driver, "INSERT INTO ", [Word("INSERT"), Word("INTO")])
  {
    KeywordReads(driver, "INSERT");
    KeywordReads(driver, "INTO");
    ClosedThenClosed(driver, "INSERT" + " ", [Word("INSERT")], "INTO" + " ", [Word("INTO")]);
    assert ("INSERT" + " ") + ("INTO" + " ") == "INSERT INTO ";
    assert [Word("INSERT")] + [Word("INTO")] == [Word("INSERT"), Word("INTO")];
  }

  lemma ParenReads(driver: string)
    ensures Delim(" (") && Reads(driver, " (", [Sym('(')]) && Reads(driver, "(", [Sym('(')])
  {
    BlankReads(driver, ' ');
    SymReads(driver, '(');
    ClosedThenClosed(driver, " ", [], "(", [Sym('(')]);
    assert " " + "(" == " (" && [] + [Sym('(')] == [Sym('(')];
  }

  lemma ValuesReads(driver: string)
    ensures Delim(") VALUES ") && Reads(driver, ") VALUES ", [Sym(')'), Word("VALUES")])
  {
    SymReads(driver, ')');
    KeywordReads(driver, "VALUES");
    ClosedThenClosed(driver, ")", [Sym(')')], " " + ("VALUES" + " "), [Word("VALUES")]);
    assert ")" + (" " + ("VALUES" + " ")) == ") VALUES ";
    assert [Sym(')')] + [Word("VALUES")] == [Sym(')'), Word("VALUES")];
  }

  lemma EndReads(driver: string)
    ensures Delim(";\n") && Reads(driver, ";\n", [Sym(';')])
    ensures Delim(");\n") && Reads(driver, ");\n", [Sym(')'), Sym(';')])
  {
    BlankReads(driver, '\n');
    SymReads(driver, ';');
    SymReads(driver, ')');
    assert [Sym(';')] + [] == [Sym(';')] && ";" + "\n" == ";\n";
    ClosedThenClosed(driver, ";", [Sym(';')], "\n", []);
    ClosedThenClosed(driver, ")", [Sym(')')], ";\n", [Sym(';')]);
    assert ")" + ";\n" == ");\n" && [Sym(')')] + [Sym(';')] == [Sym(')'), Sym(';')];
  }

  lemma FixedUpdateTexts(driver: string)
    ensures Reads(driver, "UPDATE ", [Word("UPDATE")])
    ensures Delim(" SET ") && Reads(driver, " SET ", [Word("SET")])
    ensures Delim(" WHERE ") && Reads(driver, " WHERE ", [Word("WHERE")])
    ensures Delim(" AND ") && Reads(driver, " AND ", [Word("AND")])
  {
    KeywordReads(driver, "UPDATE");
    KeywordReads(driver, "SET");
    KeywordReads(driver, "WHERE");
    KeywordReads(driver, "AND");
    assert "UPDATE" + " " == "UPDATE " && " " + ("SET" + " ") == " SET ";
    assert " " + ("WHERE" + " ") == " WHERE " && " " + ("AND" + " ") == " AND ";
  }

  /** closed text, open text, closed text with a delimiter: one step of every statement. */
  lemma Sandwich(driver: string, a: string, ta: seq<Token>, b: string, tb: seq<Token>, c: string, tc: seq<Token>)
    requires Reads(driver, a, ta) && ReadsBefore(driver, b, tb) && Delim(c) && Reads(driver, c, tc)
    ensures Reads(driver, a + b + c, ta + tb + tc)
  {
    ClosedThenOpen(driver, a, ta, b, tb);
    OpenThenClosed(driver, a + b, ta + tb, c, tc);
  }

  lemma SandwichTwice(driver: string, a: string, ta: seq<Token>, b: string, tb: seq<Token>, c: string, tc: seq<Token>,
                      d: string, td: seq<Token>, e: string, te: seq<Token>)
    requires Reads(driver, a, ta) && ReadsBefore(driver, b, tb) && Delim(c) && Reads(driver, c, tc)
    requires ReadsBefore(driver, d, td) && Delim(e) && Reads(driver, e, te)
    ensures Reads(driver, a + b + c + d + e, ta + tb + tc + td + te)
  {
    Sandwich(driver, a, ta, b, tb, c, tc);
    Sandwich(driver, a + b + c, ta + tb + tc, d, td, e, te);
  }

  lemma PrefixReads(driver: string, table: string, cols: seq<string>)
    ensures Reads(driver, InsertPrefix(driver, table, cols), PrefixTokens(table, cols))
  {
    InsertIntoReads(driver);
    IdentReads(driver, table);
    ParenReads(driver);
    NamesRead(driver, cols);
    ValuesReads(driver);
    SandwichTwice(driver, "INSERT INTO ", [Word("INSERT"), Word("INTO")], QuoteIdent(driver, table), [Ident(table)],
      " (", [Sym('(')], Join(Quoted(driver, cols), ", "), JoinTokens(NameItems(cols), Sym(',')),
      ") VALUES ", [Sym(')'), Word("VALUES")]);
  }

  lemma InsertReads(driver: string, table: string, cols: seq<string>, values: seq<Cell>)
    ensures Reads(driver, StmtText(driver, Insert(table, cols, values)), InsertTokens(driver, table, cols, values))
  {
    PrefixReads(driver, table, cols);
    ParenReads(driver);
    LiteralsRead(driver, values);
    EndReads(driver);
    ClosedThenClosed(driver, InsertPrefix(driver, table, cols), PrefixTokens(table, cols), "(", [Sym('(')]);
    Sandwich(driver, InsertPrefix(driver, table, cols) + "(", PrefixTokens(table, cols) + [Sym('(')],
      Join(Literals(driver, values), ", "), JoinTokens(LiteralItems(driver, values), Sym(',')), ");\n", [Sym(')'), Sym(';')]);
  }

  /** Everything of an UPDATE up to its WHERE word. */
  lemma UpdateHeadReads(driver: string, table: string, sets: seq<Setting>)
    ensures Reads(driver,
      "UPDATE " + QuoteIdent(driver, table) + " SET " + Join(SettingTexts(driver, sets), ", ") + " WHERE ",
      [Word("UPDATE")] + [Ident(table)] + [Word("SET")] + JoinTokens(SettingItems(driver, sets), Sym(',')) + [Word("WHERE")])
  {
    FixedUpdateTexts(driver);
    IdentReads(driver, table);
    CommaReads(driver);
    SettingsRead(driver, sets, ", ", Sym(','));
    SandwichTwice(driver, "UPDATE ", [Word("UPDATE")], QuoteIdent(driver, table), [Ident(table)], " SET ", [Word("SET")],
      Join(SettingTexts(driver, sets), ", "), JoinTokens(SettingItems(driver, sets), Sym(',')), " WHERE ", [Word("WHERE")]);
  }

  lemma UpdateReads(driver: string, table: string, sets: seq<Setting>, keys: seq<Setting>)
    ensures Reads(driver, StmtText(driver, Update(table, sets, keys)), UpdateTokens(driver, table, sets, keys))
  {
    FixedUpdateTexts(driver);
    EndReads(driver);
    SettingsRead(driver, keys, " AND ", Word("AND"));
    UpdateHeadReads(driver, table, sets);
    Sandwich(driver,
      "UPDATE " + QuoteIdent(driver, table) + " SET " + Join(SettingTexts(driver, sets), ", ") + " WHERE ",
      [Word("UPDATE")] + [Ident(table)] + [Word("SET")] + JoinTokens(SettingItems(driver, sets), Sym(',')) + [Word("WHERE")],
      Join(SettingTexts(driver, keys), " AND "), JoinTokens(SettingItems(driver, keys), Word("AND")), ";\n", [Sym(';')]);
  }

  function ScriptTokens(driver: string, stmts: seq<Stmt>): seq<Token> {
    if stmts == [] then []
    else ScriptTokens(driver, stmts[..|stmts| - 1]) + StmtTokens(driver, stmts[|stmts| - 1])
  }

  lemma {:induction false} ScriptReads(driver: string, stmts: seq<Stmt>)
    ensures Reads(driver, UndoText(driver, stmts), ScriptTokens(driver, stmts))
  {
    if stmts == [] {
      forall rest: string ensures Lex(driver, "" + rest) == Then([], Lex(driver, rest)) {
        assert "" + rest == rest;
        ThenThen([], [], Lex(driver, rest));
      }
    } else {
      var init, last := stmts[..|stmts| - 1], stmts[|stmts| - 1];
      ScriptReads(driver, init);
      match last {
        case Insert(table, cols, values) => InsertReads(driver, table, cols, values);
        case Update(table, sets, keys) => UpdateReads(driver, table, sets, keys);
      }
      ClosedThenClosed(driver, UndoText(driver, init), ScriptTokens(driver, init),
        StmtText(driver, last), StmtTokens(driver, last));
    }
  }

  lemma ScriptLexes(driver: string, stmts: seq<Stmt>)
    ensures Lex(driver, UndoText(driver, stmts)) == Some(ScriptTokens(driver, stmts))
  {
    ScriptReads(driver, stmts);
    var text := UndoText(driver, stmts);
    assert text + "" == text;
    assert Lex(driver, text + "") == Then(ScriptTokens(driver, stmts), Lex(driver, ""));
    assert ScriptTokens(driver, stmts) + [] == ScriptTokens(driver, stmts);
  }

  // -------------------------------------------------------------- tokens to statements

  lemma {:induction false} NamesParse(names: seq<string>, rest: seq<Token>)
    requires rest != [] && rest[0] != Sym(',') && !rest[0].Ident?
    ensures ParseNames(JoinTokens(NameItems(names), Sym(',')) + rest) == if names == [] then Bad else Parsed(names, rest)
  {
    var items := NameItems(names);
    if names == [] {
      assert JoinTokens(items, Sym(',')) + rest == rest;
    } else if |names| == 1 {
      assert names == [names[0]] && (items[0] + rest)[1..] == rest;
      assert (items[0] + rest)[1] == rest[0];
    } else {
      NamesParse(names[1..], rest);
      assert items[1..] == NameItems(names[1..]);
      var more := JoinTokens(items[1..], Sym(',')) + rest;
      var ts := JoinTokens(items, Sym(',')) + rest;
      assert ts == [Ident(names[0]), Sym(',')] + more && names == [names[0]] + names[1..];
      assert ts[2..] == more;
    }
  }

  /** One literal in front of more tokens, as ParseLiterals reads it. */
  lemma LiteralStep(t: Token, more: seq<Token>)
    ensures more != [] && more[0] != Sym(',') && ParseLiteral(t).Some? ==>
      ParseLiterals([t] + more) == Parsed([ParseLiteral(t).value], more)
    ensures ParseLiteral(t).Some? ==>
      ParseLiterals([t, Sym(',')] + more) ==
        (match ParseLiterals(more)
         case Bad => Bad
         case Parsed(cells, rest) => Parsed([ParseLiteral(t).value] + cells, rest))
  {
    assert ([t] + more)[1..] == more && ([t, Sym(',')] + more)[2..] == more;
    if more != [] { assert ([t] + more)[1] == more[0]; }
  }

  lemma StoredCellsCons(driver: string, cells: seq<Cell>)
    requires cells != []
    ensures StoredCells(driver, cells) == [Stored(driver, cells[0])] + StoredCells(driver, cells[1..])
    ensures LiteralItems(driver, cells)[1..] == LiteralItems(driver, cells[1..])
  {
  }

  lemma {:induction false} LiteralsParse(driver: string, cells: seq<Cell>, rest: seq<Token>)
    requires rest != [] && rest[0].Sym? && rest[0] != Sym(',')
    ensures ParseLiterals(JoinTokens(LiteralItems(driver, cells), Sym(',')) + rest) ==
      if cells == [] then Bad else Parsed(StoredCells(driver, cells), rest)
  {
    var items := LiteralItems(driver, cells);
    if cells == [] {
      assert JoinTokens(items, Sym(',')) + rest == rest;
    } else {
      var t := LiteralToken(driver, cells[0]);
      LiteralReads(driver, cells[0]);
      StoredCellsCons(driver, cells);
      if |cells| == 1 {
        assert StoredCells(driver, cells[1..]) == [] && JoinTokens(items, Sym(',')) == [t];
        assert StoredCells(driver, cells) == [Stored(driver, cells[0])];
        LiteralStep(t, rest);
      } else {
        var others := JoinTokens(items[1..], Sym(','));
        LiteralsParse(driver, cells[1..], rest);
        assert [t] + [Sym(',')] + others + rest == [t, Sym(',')] + (others + rest);
        LiteralStep(t, others + rest);
      }
    }
  }

  /** One setting in front of more tokens, as ParseSettings reads it. */
  lemma SettingStep(sep: Token, col: string, t: Token, more: seq<Token>)
    requires ParseLiteral(t).Some?
    ensures more != [] && more[0] != sep ==>
      ParseSettings(sep, [Ident(col), Sym('='), t] + more) == Parsed([Setting(col, ParseLiteral(t).value)], more)
    ensures ParseSettings(sep, [Ident(col), Sym('='), t, sep] + more) ==
      (match ParseSettings(sep, more)
       case Bad => Bad
       case Parsed(others, rest) => Parsed([Setting(col, ParseLiteral(t).value)] + others, rest))
  {
    assert ([Ident(col), Sym('='), t] + more)[3..] == more && ([Ident(col), Sym('='), t, sep] + more)[4..] == more;
    if more != [] { assert ([Ident(col), Sym('='), t] + more)[3] == more[0]; }
  }

  lemma StoredSettingsCons(driver: string, settings: seq<Setting>)
    requires settings != []
    ensures StoredSettings(driver, settings) ==
      [Setting(settings[0].col, Stored(driver, settings[0].value))] + StoredSettings(driver, settings[1..])
    ensures SettingItems(driver, settings)[1..] == SettingItems(driver, settings[1..])
  {
  }

  lemma {:induction false} SettingsParse(driver: string, settings: seq<Setting>, sep: Token, rest: seq<Token>)
    requires rest != [] && rest[0] != sep && !rest[0].Ident?
    ensures ParseSettings(sep, JoinTokens(SettingItems(driver, settings), sep) + rest) ==
      if settings == [] then Bad else Parsed(StoredSettings(driver, settings), rest)
  {
    var items := SettingItems(driver, settings);
    if settings == [] {
      assert JoinTokens(items, sep) + rest == rest;
    } else {
      var col, t := settings[0].col, LiteralToken(driver, settings[0].value);
      LiteralReads(driver, settings[0].value);
      StoredSettingsCons(driver, settings);
      if |settings| == 1 {
        assert StoredSettings(driver, settings[1..]) == [] && JoinTokens(items, sep) == [Ident(col), Sym('='), t];
        assert StoredSettings(driver, settings) == [Setting(col, Stored(driver, settings[0].value))];
        SettingStep(sep, col, t, rest);
      } else {
        var others := JoinTokens(items[1..], sep);
        SettingsParse(driver, settings[1..], sep, rest);
        assert [Ident(col), Sym('='), t] + [sep] + others + rest == [Ident(col), Sym('='), t, sep] + (others + rest);
        SettingStep(sep, col, t, others + rest);
      }
    }
  }

  /** ParseInsert, seen as one list after the other. */
  lemma InsertSteps(table: string, ts: seq<Token>)
    ensures ParseInsert([Word("INTO"), Ident(table), Sym('(')] + ts) ==
      match ParseNames(ts)
      case Bad => Bad
      case Parsed(names, ts1) => InsertValues(table, names, ts1)
  {
    assert ([Word("INTO"), Ident(table), Sym('(')] + ts)[3..] == ts;
  }

  function InsertValues(table: string, names: seq<string>, ts: seq<Token>): Parsed<Stmt, seq<Token>> {
    if |ts| < 3 || ts[0] != Sym(')') || ts[1] != Word("VALUES") || ts[2] != Sym('(') then Bad
    else
      match ParseLiterals(ts[3..])
      case Bad => Bad
      case Parsed(cells, ts2) =>
        if |ts2| < 2 || ts2[0] != Sym(')') || ts2[1] != Sym(';') then Bad
        else Parsed(Insert(table, names, cells), ts2[2..])
  }

  lemma InsertLayout(table: string, n: seq<Token>, c: seq<Token>, rest: seq<Token>)
    ensures ([Word("INSERT"), Word("INTO")] + [Ident(table)] + [Sym('(')] + n + [Sym(')'), Word("VALUES")]
             + [Sym('(')] + c + [Sym(')'), Sym(';')]) + rest
      == [Word("INSERT")] + ([Word("INTO"), Ident(table), Sym('(')]
             + (n + ([Sym(')'), Word("VALUES"), Sym('(')] + (c + ([Sym(')'), Sym(';')] + rest)))))
  {
  }

  lemma InsertParses(driver: string, table: string, cols: seq<string>, values: seq<Cell>, rest: seq<Token>)
    ensures ParseStmt(InsertTokens(driver, table, cols, values) + rest) ==
      if Complete(Insert(table, cols, values)) then Parsed(StoredStmt(driver, Insert(table, cols, values)), rest) else Bad
  {
    var n, c := JoinTokens(NameItems(cols), Sym(',')), JoinTokens(LiteralItems(driver, values), Sym(','));
    var end := [Sym(')'), Sym(';')] + rest;
    var mid := [Sym(')'), Word("VALUES"), Sym('(')] + (c + end);
    var body := [Word("INTO"), Ident(table), Sym('(')] + (n + mid);
    InsertLayout(table, n, c, rest);
    assert ([Word("INSERT")] + body)[1..] == body;
    InsertSteps(table, n + mid);
    NamesParse(cols, mid);
    assert mid[3..] == c + end;
    LiteralsParse(driver, values, end);
    assert end[2..] == rest;
  }

  lemma UpdateSteps(table: string, ts: seq<Token>)
    ensures ParseUpdate([Ident(table), Word("SET")] + ts) ==
      match ParseSettings(Sym(','), ts)
      case Bad => Bad
      case Parsed(sets, ts1) => UpdateKeys(table, sets, ts1)
  {
    assert ([Ident(table), Word("SET")] + ts)[2..] == ts;
  }

  function UpdateKeys(table: string, sets: seq<Setting>, ts: seq<Token>): Parsed<Stmt, seq<Token>> {
    if ts == [] || ts[0] != Word("WHERE") then Bad
    else
      match ParseSettings(Word("AND"), ts[1..])
      case Bad => Bad
      case Parsed(keys, ts2) =>
        if ts2 == [] || ts2[0] != Sym(';') then Bad else Parsed(Update(table, sets, keys), ts2[1..])
  }

  lemma UpdateLayout(table: string, s: seq<Token>, k: seq<Token>, rest: seq<Token>)
    ensures ([Word("UPDATE")] + [Ident(table)] + [Word("SET")] + s + [Word("WHERE")] + k + [Sym(';')]) + rest
      == [Word("UPDATE")] + ([Ident(table), Word("SET")] + (s + ([Word("WHERE")] + (k + ([Sym(';')] + rest)))))
  {
  }

  lemma UpdateParses(driver: string, table: string, sets: seq<Setting>, keys: seq<Setting>, rest: seq<Token>)
    ensures ParseStmt(UpdateTokens(driver, table, sets, keys) + rest) ==
      if Complete(Update(table, sets, keys)) then Parsed(StoredStmt(driver, Update(table, sets, keys)), rest) else Bad
  {
    var s, k := JoinTokens(SettingItems(driver, sets), Sym(',')), JoinTokens(SettingItems(driver, keys), Word("AND"));
    var end := [Sym(';')] + rest;
    var mid := [Word("WHERE")] + (k + end);
    var body := [Ident(table), Word("SET")] + (s + mid);
    UpdateLayout(table, s, k, rest);
    assert ([Word("UPDATE")] + body)[1..] == body;
    UpdateSteps(table, s + mid);
    SettingsParse(driver, sets, Sym(','), mid);
    assert mid[1..] == k + end;
    SettingsParse(driver, keys, Word("AND"), end);
    assert end[1..] == rest;
  }

  lemma StmtParses(driver: string, s: Stmt, rest: seq<Token>)
    ensures ParseStmt(StmtTokens(driver, s) + rest) == if Complete(s) then Parsed(StoredStmt(driver, s), rest) else Bad
    ensures StmtTokens(driver, s) != []
  {
    match s
    case Insert(table, cols, values) => InsertParses(driver, table, cols, values, rest);
    case Update(table, sets, keys) => UpdateParses(driver, table, sets, keys, rest);
  }

  lemma {:induction false} ScriptTokensCons(driver: string, first: Stmt, more: seq<Stmt>)
    ensures ScriptTokens(driver, [first] + more) == StmtTokens(driver, first) + ScriptTokens(driver, more)
  {
    var all := [first] + more;
    if more == [] {
      assert all[..0] == [] && all[0] == first;
      assert StmtTokens(driver, first) + [] == StmtTokens(driver, first);
      assert [] + StmtTokens(driver, first) == StmtTokens(driver, first);
    } else {
      var init, last := more[..|more| - 1], more[|more| - 1];
      assert all[..|all| - 1] == [first] + init && all[|all| - 1] == last;
      ScriptTokensCons(driver, first, init);
      Assoc(StmtTokens(driver, first), ScriptTokens(driver, init), StmtTokens(driver, last));
    }
  }

  /** A readable first statement, then the rest of the script. */
  lemma ScriptStep(driver: string, first: Stmt, ts: seq<Token>)
    ensures ParseScript(StmtTokens(driver, first) + ts) ==
      if !Complete(first) then None
      else match ParseScript(ts) case None => None case Some(more) => Some([StoredStmt(driver, first)] + more)
  {
    StmtParses(driver, first, ts);
  }

  lemma {:induction false} ScriptParses(driver: string, stmts: seq<Stmt>)
    ensures ParseScript(ScriptTokens(driver, stmts)) ==
      if AllComplete(stmts) then Some(StoredScript(driver, stmts)) else None
  {
    if stmts == [] {
      assert StoredScript(driver, stmts) == [];
    } else {
      ScriptParses(driver, stmts[1..]);
      AllCompleteCons(stmts);
      ScriptCons(driver, stmts);
      StoredScriptCons(driver, stmts);
      ScriptStep(driver, stmts[0], ScriptTokens(driver, stmts[1..]));
    }
  }

  lemma ScriptCons(driver: string, stmts: seq<Stmt>)
    requires stmts != []
    ensures ScriptTokens(driver, stmts) == StmtTokens(driver, stmts[0]) + ScriptTokens(driver, stmts[1..])
  {
    var first, more := stmts[0], stmts[1..];
    assert stmts == [first] + more;
    ScriptTokensCons(driver, first, more);
  }

  lemma StoredScriptCons(driver: string, stmts: seq<Stmt>)
    requires stmts != []
    ensures StoredScript(driver, stmts) == [StoredStmt(driver, stmts[0])] + StoredScript(driver, stmts[1..])
  {
    var more := stmts[1..];
    forall k | 0 <= k < |more| ensures StoredScript(driver, stmts)[k + 1] == StoredScript(driver, more)[k] {
      assert more[k] == stmts[k + 1];
    }
  }

  lemma AllCompleteCons(stmts: seq<Stmt>)
    requires stmts != []
    ensures AllComplete(stmts) <==> Complete(stmts[0]) && AllComplete(stmts[1..])
  {
    var more := stmts[1..];
    if Complete(stmts[0]) && AllComplete(more) {
      forall k | 0 <= k < |stmts| ensures Complete(stmts[k]) {
        if k > 0 { assert Complete(more[k - 1]); }
      }
    }
  }

  /**
   The undo text reads back as exactly the planned statements, one per snapshot row and in order,
   with the same table, columns and values (booleans in the driver's stored form), precisely when
   no statement has an empty list; with an empty list it reads as nothing at all.
   */
  lemma UndoTextReadsBack(driver: string, stmts: seq<Stmt>)
    ensures Read(driver, UndoText(driver, stmts)) ==
      if AllComplete(stmts) then Some(StoredScript(driver, stmts)) else None
  {
    ScriptLexes(driver, stmts);
    ScriptParses(driver, stmts);
  }

  /** The plans that read back: a DELETE needs a column, an UPDATE a changed column. */
  lemma PlanIsComplete(p: Parser.ParsedDML, cols: seq<string>, pkCols: seq<string>, rows: seq<Row>)
    requires Aligned(cols, rows) && Plan(p, cols, pkCols, rows).Some?
    ensures AllComplete(Plan(p, cols, pkCols, rows).value) <==> if p.verb == "DELETE" then cols != [] else p.setCols != []
    ensures |Plan(p, cols, pkCols, rows).value| == |rows|
  {
    var plan := Plan(p, cols, pkCols, rows).value;
    assert Complete(plan[0]) <==> if p.verb == "DELETE" then cols != [] else p.setCols != [];
  }

  // ------------------------------------------------------------ the snapshot query

  lemma IdentIsRead(driver: string, name: string, rest: string)
    requires rest == "" || rest[0] in [',', ' ']
    ensures ReadIdent(driver, QuoteIdent(driver, name) + rest) == Chunk(name, rest)
  {
    var open, close := MarksOf(driver).open, MarksOf(driver).close;
    var body := Doubled(close, name) + ([close] + rest);
    assert QuoteIdent(driver, name) + rest == [open] + body;
    assert ([open] + body)[1..] == body;
    ReadDoubled(close, name, rest);
  }

  lemma {:induction false} ColumnsAreRead(driver: string, names: seq<string>, rest: string)
    requires names != [] && " FROM " <= rest
    ensures ReadColumns(driver, Join(Quoted(driver, names), ", ") + rest) == Parsed(names, rest)
  {
    var parts := Quoted(driver, names);
    if |names| == 1 {
      assert rest[0] == ' ' && names == [names[0]];
      IdentIsRead(driver, names[0], rest);
    } else {
      var more := Join(parts[1..], ", ") + rest;
      assert Quoted(driver, names[1..]) == parts[1..];
      ColumnsAreRead(driver, names[1..], rest);
      assert Join(parts, ", ") + rest == parts[0] + (", " + more);
      OneMoreColumn(driver, names[0], more, names[1..], rest);
      assert [names[0]] + names[1..] == names;
    }
  }

  lemma OneMoreColumn(driver: string, name: string, more: string, names: seq<string>, rest: string)
    requires ReadColumns(driver, more) == Parsed(names, rest)
    ensures ReadColumns(driver, QuoteIdent(driver, name) + (", " + more)) == Parsed([name] + names, rest)
  {
    IdentIsRead(driver, name, ", " + more);
    assert (", " + more)[2..] == more;
  }

  lemma FromIsRead(driver: string, cols: Option<seq<string>>, p: Parser.ParsedDML)
    ensures ReadFrom(driver, cols, QuoteIdent(driver, p.table) + WhereSuffix(p)) ==
      Some(Select(cols, p.table, if p.hasWhere && p.whereClause != "" then Some(p.whereClause) else None))
  {
    IdentIsRead(driver, p.table, WhereSuffix(p));
    assert (" WHERE " + p.whereClause)[7..] == p.whereClause;
  }

  /** The snapshot query reads back as the columns, the table and the predicate it was built for. */
  lemma SnapshotReadsBack(driver: string, p: Parser.ParsedDML, pkCols: seq<string>)
    requires p.verb != "DELETE" ==> SnapshotColumns(pkCols, p.setCols) != []
    ensures ReadSelect(driver, SnapshotQuery(driver, p, pkCols)) ==
      Some(Select(if p.verb == "DELETE" then None else Some(SnapshotColumns(pkCols, p.setCols)), p.table,
                  if p.hasWhere && p.whereClause != "" then Some(p.whereClause) else None))
  {
    var behind := QuoteIdent(driver, p.table) + WhereSuffix(p);
    if p.verb == "DELETE" {
      SelectTexts("*", QuoteIdent(driver, p.table), WhereSuffix(p));
      StarIsRead(driver, behind);
      FromIsRead(driver, None, p);
    } else {
      var names := SnapshotColumns(pkCols, p.setCols);
      SelectTexts(Join(Quoted(driver, names), ", "), QuoteIdent(driver, p.table), WhereSuffix(p));
      NamesAreRead(driver, names, behind);
      FromIsRead(driver, Some(names), p);
    }
  }

  lemma SelectTexts(cols: string, table: string, suffix: string)
    ensures "SELECT " + cols + " FROM " + table + suffix == "SELECT " + (cols + (" FROM " + (table + suffix)))
  {
  }

  lemma StarIsRead(driver: string, behind: string)
    ensures ReadSelect(driver, "SELECT " + ("*" + (" FROM " + behind))) == ReadFrom(driver, None, behind)
  {
    var s := "SELECT " + ("*" + (" FROM " + behind));
    assert s[7..] == "* FROM " + behind && s[14..] == behind;
  }

  lemma NamesAreRead(driver: string, names: seq<string>, behind: string)
    requires names != []
    ensures ReadSelect(driver, "SELECT " + (Join(Quoted(driver, names), ", ") + (" FROM " + behind)))
      == ReadFrom(driver, Some(names), behind)
  {
    var list := Join(Quoted(driver, names), ", ") + (" FROM " + behind);
    assert ("SELECT " + list)[7..] == list && (" FROM " + behind)[6..] == behind;
    ColumnsAreRead(driver, names, " FROM " + behind);
    FirstIsOpen(driver, names, " FROM " + behind);
  }

  /** A column list does not start with a star. */
  lemma FirstIsOpen(driver: string, names: seq<string>, rest: string)
    requires names != []
    ensures Join(Quoted(driver, names), ", ") + rest != "" && (Join(Quoted(driver, names), ", ") + rest)[0] == MarksOf(driver).open
  {
    assert Quoted(driver, names)[0][0] == MarksOf(driver).open;
  }
}
