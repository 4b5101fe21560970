/**
 An independent reader for the text the rollback generator prints, and the proof that it reads back
 exactly the planned statements. The lexer knows the dialect's identifier quotes, literals with
 doubled single quotes, words, integers and punctuation; anything else, such as a comment or an
 unterminated quote, makes it give up. The parser knows INSERT and UPDATE with non-empty lists.
 */
module RollbackReader {
  import opened Text
  import opened SqlBuild
  import opened Rollback

  datatype Token = Ident(name: string) | Quote(text: string) | Word(word: string) | Sym(c: char)

  // ------------------------------------------------------------------- lexer

  /** How a server of each dialect opens and closes a quoted identifier. */
  datatype Marks = Marks(open: char, close: char)

  function MarksOf(driver: string): Marks {
    if driver == "mysql" then Marks('`', '`')
    else if driver == "sqlserver" then Marks('[', ']')
    else Marks('"', '"')  // postgres and sqlite
  }

  datatype Chunk = Unterminated | Chunk(content: string, rest: string)

  /** The text up to an undoubled mark, doubled marks read as one, and what follows the mark. */
  function ReadQuoted(mark: char, s: string): (r: Chunk)
    ensures r.Chunk? ==> |r.rest| < |s|
    decreases |s|
  {
    if s == "" then Unterminated
    else if s[0] != mark then
      match ReadQuoted(mark, s[1..])
      case Unterminated => Unterminated
      case Chunk(content, rest) => Chunk([s[0]] + content, rest)
    else if |s| >= 2 && s[1] == mark then
      match ReadQuoted(mark, s[2..])
      case Unterminated => Unterminated
      case Chunk(content, rest) => Chunk([mark] + content, rest)
    else Chunk("", s[1..])
  }

  function WordEnd(s: string, i: nat): (r: nat)
    requires i <= |s|
    ensures i <= r <= |s|
    decreases |s| - i
  {
    if i < |s| && IsWordByte(s[i]) then WordEnd(s, i + 1) else i
  }

  /** tokens in front of whatever the rest of the text lexes to. */
  function Then(tokens: seq<Token>, rest: Option<seq<Token>>): Option<seq<Token>> {
    if rest.None? then None else Some(tokens + rest.value)
  }

  function Lex(driver: string, s: string): Option<seq<Token>>
    decreases |s|
  {
    if s == "" then Some([])
    else
      var c := s[0];
      if IsSpace(c) then Lex(driver, s[1..])
      else if c == MarksOf(driver).open then
        match ReadQuoted(MarksOf(driver).close, s[1..])
        case Unterminated => None
        case Chunk(content, rest) => Then([Ident(content)], Lex(driver, rest))
      else if c == '\'' then
        match ReadQuoted('\'', s[1..])
        case Unterminated => None
        case Chunk(content, rest) => Then([Quote(content)], Lex(driver, rest))
      else if IsWordByte(c) || (c == '-' && |s| >= 2 && IsWordByte(s[1])) then
        var k := WordEnd(s, 1);
        Then([Word(s[..k])], Lex(driver, s[k..]))
      else if c in ['(', ')', ',', '=', ';'] then Then([Sym(c)], Lex(driver, s[1..]))
      else None
  }

  // ------------------------------------------------------------------ parser

  function ParseNat(s: string): Option<nat> {
    if s == "" then None
    else
      var c := s[|s| - 1];
      if !('0' <= c <= '9') then None
      else
        var d := c as int - '0' as int;
        if |s| == 1 then Some(d)
        else
          match ParseNat(s[..|s| - 1])
          case None => None
          case Some(n) => Some(10 * n + d)
  }

  function ParseLiteral(t: Token): Option<Cell> {
    match t
    case Quote(text) => Some(Str(text))
    case Word(w) =>
      if w == "NULL" then Some(Null)
      else if w == "TRUE" then Some(Bool(true))
      else if w == "FALSE" then Some(Bool(false))
      else if w != "" && w[0] == '-' then
        (match ParseNat(w[1..]) case None => None case Some(n) => Some(Int(0 - n)))
      else
        (match ParseNat(w) case None => None case Some(n) => Some(Int(n)))
    case _ => None
  }

  datatype Parsed<T, R> = Bad | Parsed(value: T, rest: R)

  /** name, name, ... with at least one name. */
  function ParseNames(ts: seq<Token>): (r: Parsed<seq<string>, seq<Token>>)
    ensures r.Parsed? ==> |r.rest| < |ts|
  {
    if ts == [] || !ts[0].Ident? then Bad
    else if |ts| >= 2 && ts[1] == Sym(',') then
      match ParseNames(ts[2..])
      case Bad => Bad
      case Parsed(names, rest) => Parsed([ts[0].name] + names, rest)
    else Parsed([ts[0].name], ts[1..])
  }

  function ParseLiterals(ts: seq<Token>): (r: Parsed<seq<Cell>, seq<Token>>)
    ensures r.Parsed? ==> |r.rest| < |ts|
  {
    if ts == [] || ParseLiteral(ts[0]).None? then Bad
    else if |ts| >= 2 && ts[1] == Sym(',') then
      match ParseLiterals(ts[2..])
      case Bad => Bad
      case Parsed(cells, rest) => Parsed([ParseLiteral(ts[0]).value] + cells, rest)
    else Parsed([ParseLiteral(ts[0]).value], ts[1..])
  }

  /** name = literal, separated by sep, at least once. */
  function ParseSettings(sep: Token, ts: seq<Token>): (r: Parsed<seq<Setting>, seq<Token>>)
    ensures r.Parsed? ==> |r.rest| < |ts|
  {
    if |ts| < 3 || !ts[0].Ident? || ts[1] != Sym('=') || ParseLiteral(ts[2]).None? then Bad
    else
      var first := Setting(ts[0].name, ParseLiteral(ts[2]).value);
      if |ts| >= 4 && ts[3] == sep then
        match ParseSettings(sep, ts[4..])
        case Bad => Bad
        case Parsed(more, rest) => Parsed([first] + more, rest)
      else Parsed([first], ts[3..])
  }

  function ParseInsert(ts: seq<Token>): (r: Parsed<Stmt, seq<Token>>)
    ensures r.Parsed? ==> |r.rest| < |ts|
  {
    if |ts| < 3 || ts[0] != Word("INTO") || !ts[1].Ident? || ts[2] != Sym('(') then Bad
    else
      match ParseNames(ts[3..])
      case Bad => Bad
      case Parsed(names, ts1) =>
        if |ts1| < 3 || ts1[0] != Sym(')') || ts1[1] != Word("VALUES") || ts1[2] != Sym('(') then Bad
        else
          match ParseLiterals(ts1[3..])
          case Bad => Bad
          case Parsed(cells, ts2) =>
            if |ts2| < 2 || ts2[0] != Sym(')') || ts2[1] != Sym(';') then Bad
            else Parsed(Insert(ts[1].name, names, cells), ts2[2..])
  }

  function ParseUpdate(ts: seq<Token>): (r: Parsed<Stmt, seq<Token>>)
    ensures r.Parsed? ==> |r.rest| < |ts|
  {
    if |ts| < 2 || !ts[0].Ident? || ts[1] != Word("SET") then Bad
    else
      match ParseSettings(Sym(','), ts[2..])
      case Bad => Bad
      case Parsed(sets, ts1) =>
        if ts1 == [] || ts1[0] != Word("WHERE") then Bad
        else
          match ParseSettings(Word("AND"), ts1[1..])
          case Bad => Bad
          case Parsed(keys, ts2) =>
            if ts2 == [] || ts2[0] != Sym(';') then Bad
            else Parsed(Update(ts[0].name, sets, keys), ts2[1..])
  }

  function ParseStmt(ts: seq<Token>): (r: Parsed<Stmt, seq<Token>>)
    ensures r.Parsed? ==> |r.rest| < |ts|
  {
    if ts == [] then Bad
    else if ts[0] == Word("INSERT") then ParseInsert(ts[1..])
    else if ts[0] == Word("UPDATE") then ParseUpdate(ts[1..])
    else Bad
  }

  function ParseScript(ts: seq<Token>): Option<seq<Stmt>>
    decreases |ts|
  {
    if ts == [] then Some([])
    else
      match ParseStmt(ts)
      case Bad => None
      case Parsed(stmt, rest) =>
        match ParseScript(rest)
        case None => None
        case Some(more) => Some([stmt] + more)
  }

  function Read(driver: string, text: string): Option<seq<Stmt>> {
    match Lex(driver, text)
    case None => None
    case Some(tokens) => ParseScript(tokens)
  }

  // --------------------------------------------------------- snapshot queries

  /** SELECT cols FROM table WHERE predicate; no columns stand for the star. */
  datatype Select = Select(cols: Option<seq<string>>, table: string, predicate_: Option<string>)

  function ReadIdent(driver: string, s: string): (r: Chunk)
    ensures r.Chunk? ==> |r.rest| < |s|
  {
    if s != "" && s[0] == MarksOf(driver).open then ReadQuoted(MarksOf(driver).close, s[1..]) else Unterminated
  }

  /** name, name, ... with at least one name. */
  function ReadColumns(driver: string, s: string): Parsed<seq<string>, string>
    decreases |s|
  {
    match ReadIdent(driver, s)
    case Unterminated => Bad
    case Chunk(name, rest) =>
      if ", " <= rest then
        match ReadColumns(driver, rest[2..])
        case Bad => Bad
        case Parsed(names, behind) => Parsed([name] + names, behind)
      else Parsed([name], rest)
  }

  function ReadFrom(driver: string, cols: Option<seq<string>>, s: string): Option<Select> {
    match ReadIdent(driver, s)
    case Unterminated => None
    case Chunk(table, rest) =>
      if rest == "" then Some(Select(cols, table, None))
      else if " WHERE " <= rest then Some(Select(cols, table, Some(rest[7..])))
      else None
  }

  function ReadSelect(driver: string, s: string): Option<Select> {
    if !("SELECT " <= s) then None
    else if "* FROM " <= s[7..] then ReadFrom(driver, None, s[14..])
    else
      match ReadColumns(driver, s[7..])
      case Bad => None
      case Parsed(names, rest) => if " FROM " <= rest then ReadFrom(driver, Some(names), rest[6..]) else None
  }

  // -------------------------------------------------------- what is expected

  /** Outside postgres a boolean is written, and so read, as 0 or 1. */
  function Stored(driver: string, c: Cell): Cell {
    if c.Bool? && driver != "postgres" then Int(if c.b then 1 else 0) else c
  }

  function StoredCells(driver: string, cells: seq<Cell>): (r: seq<Cell>)
    ensures |r| == |cells| && forall k :: 0 <= k < |cells| ==> r[k] == Stored(driver, cells[k])
  {
    seq(|cells|, k requires 0 <= k < |cells| => Stored(driver, cells[k]))
  }

  function StoredSettings(driver: string, settings: seq<Setting>): (r: seq<Setting>)
    ensures |r| == |settings|
    ensures forall k :: 0 <= k < |settings| ==> r[k] == Setting(settings[k].col, Stored(driver, settings[k].value))
  {
    seq(|settings|, k requires 0 <= k < |settings| => Setting(settings[k].col, Stored(driver, settings[k].value)))
  }

  function StoredStmt(driver: string, s: Stmt): Stmt {
    match s
    case Insert(table, cols, values) => Insert(table, cols, StoredCells(driver, values))
    case Update(table, sets, keys) => Update(table, StoredSettings(driver, sets), StoredSettings(driver, keys))
  }

  function StoredScript(driver: string, stmts: seq<Stmt>): (r: seq<Stmt>)
    ensures |r| == |stmts| && forall k :: 0 <= k < |stmts| ==> r[k] == StoredStmt(driver, stmts[k])
  {
    seq(|stmts|, k requires 0 <= k < |stmts| => StoredStmt(driver, stmts[k]))
  }

  /** A statement with nothing to set or insert has no reading. */
  predicate Complete(s: Stmt) {
    match s
    case Insert(_, cols, values) => cols != [] && values != []
    case Update(_, sets, keys) => sets != [] && keys != []
  }

  predicate AllComplete(stmts: seq<Stmt>) {
    forall k | 0 <= k < |stmts| :: Complete(stmts[k])
  }
}
