# Verified model of the Rebase query engine's core

A Dafny model of the parts of the Rebase database client that carry logic of their own, and proofs
about them. One module per source file or topic; every module starts with a note on what it models.

- **SQL scanner and DML parser** (`Text`, `Scanner`, `CommentStripper`, `Parser`, `WhereClause`,
  `ParserRoundTrip`, `ParserComments`, `ParserRefusals`): a position-by-position reading of literals, parentheses and
  keywords; the skip-ahead loops are proved equal to it; `ParseDML` undoes printing; what its comment
  stripper does to literals.
- **Rollback generator** (`SqlBuild`, `Rollback`, `RollbackReader`, `RollbackLexing`,
  `RollbackRoundTrip`, `RollbackRestore`, `RollbackEndToEnd`): the loops print exactly a plan of
  statements, an independently written lexer and parser reads that plan back, and running it restores
  the table, from the text of the statement to the table after its undo.
- **Comment and literal strippers, read-only classifier** (`NoiseStripper`, `QueryPolicy`, `QueryVerdict`).
- **Agent loop** (`Redaction`, `Agent`, `AgentTheorems`): transcript, secrets and withheld rows over
  whole runs, for any provider and any tools.
- **Query tabs** (`TabSessions`, `TabOutcomes`, `TabEditor`, `MultiRun`): who owns which database session, and
  interrupted and resumed scripts.
- **Connection and proposal services** (`Connections`, `Proposals`): two stores kept in step.
- **Access scope and tool registries** (`McpScope`, `McpRegistry`): routing of calls and the path of
  a write.

Loops and mutable objects of the source are methods and classes here, each proved against a
specification function; the theorems are lemmas about those functions. Text is `seq<char>` holding
ASCII. The database, the language-model provider, the tools, JSON, clocks and fresh identifiers are
parameters or unknown functions.

## What the proofs showed

Where a promise does not hold of the code, the code is modelled as it is and the exact condition is
proved:

- `setColumns` (`engine/internal/analyzer/parser.go:187-190`) says commas inside string literals do
  not corrupt the column list. It reads commas and parentheses without regard to literals, so they do.
  `n = ',='` reports a second column, and `a = '(', b = 2` loses column b. With every comma between
  assignments at raw paren depth 0 the list is right if and only if no value carries a stray
  assignment; with values free of commas it is right if and only if those commas are at raw paren
  depth 0 (`ParserRoundTrip.SetColumnsRoundTrip`). When a value has both faults they can cancel out
  (`ParserRoundTrip.StrayHidesLoss`).
- `ParseDML` promises to be literal aware (`engine/internal/analyzer/parser.go:24-27`), but
  `stripComments` is not: a comment mark inside a literal makes it read another statement.
  `UPDATE t SET a = '--', b = 2 WHERE c = '1'` is read without filter and without column b
  (`ParserComments.DashInLiteralLosesFilter`, for whole families `LineMarkCutsUpdate`),
  `DELETE FROM t WHERE a = '/*' OR b = '*/'` as `DELETE FROM t WHERE a = ' '`
  (`ParserComments.BlockAcrossLiterals`). A DELETE with a predicate and no tail is read back if and only
  if its predicate holds no comment mark, which is when `stripComments` leaves the text alone
  (`ParserComments.DeleteReadIff`, `CommentStripper.StripIsIdentityIff`); an UPDATE whose SET clause keeps
  its comments to itself keeps its predicate under the same condition, and the columns of the stripped
  clause (`ParserComments.UpdateSurvives`).
- The same blindness hides a second statement: `DELETE FROM t WHERE a = '--'; DROP TABLE x` is accepted as
  one DELETE (`ParserComments.DashHidesSecondStatement`). On one line and without block comments a second
  statement is refused if and only if no line comment mark stands in front of it
  (`ParserComments.SecondStatementSeenIff`).
- What that does to the undo: every unlimited DELETE is undone, whatever the predicates select, if and only
  if the predicate holds no comment mark (`RollbackEndToEnd.DeleteUndoneIff`); with one, rows that were
  never deleted are inserted again. An UPDATE is undone, whatever it changes, if and only if every cell it
  may change lies in a snapshotted row and a reported column (`RollbackEndToEnd.UndoesEveryEffectIff`):
  without comment marks, if and only if every set column the table has is reported
  (`UpdateTextAlwaysUndone`), and with comma-free values and distinct targets if and only if the commas
  between assignments are at raw paren depth 0 (`CommaFreeUpdateAlwaysUndone`); with a line comment mark in
  a value, if and only if it sets no column of the table behind the mark (`CutUpdateAlwaysUndone`).
- A column too many does no harm if the table has it. From no reported column at all comes text with an
  empty SET list, which no reader accepts (`RollbackRestore.RollbackUndoesUpdate`).
- `stripTrailingClauses` drops LIMIT, so the snapshot of a limited DELETE holds every row its predicate
  selects, or the whole table without one, and the undo inserts the surviving ones again. A DELETE with
  LIMIT n is undone if and only if no more than n rows satisfy its predicate
  (`RollbackEndToEnd.LimitedDeleteIsUndone`).
- The naive statement test of the classifier is said to be only ever more conservative
  (`engine/internal/domain/policy.go:118-121`). It looks at text its own literal-blind stripper left over, so
  `SELECT '--'; DROP TABLE x` is answered as read-only (`QueryPolicy.DropIsReadOnly`,
  `QueryPolicy.DashHidesStatement`). A query without comment marks in its literals that is answered as
  read-only does hold one statement (`QueryPolicy.ReadOnlyIsOneStatement`), and text that ends no comment,
  put behind a read-only query, goes unnoticed if and only if the stripper reaches it inside a comment
  (`QueryPolicy.AppendedStatementIff`).
- A DELETE or UPDATE is destructive to the classifier if and only if no WHERE stands between plain blanks
  (`QueryVerdict.DestructiveIff`). So `UPDATE t SET a = ' WHERE '` passes as not destructive
  (`QueryVerdict.LiteralHidesMissingWhere`).
- `Redact` removes a secret from every text, whatever the other secrets are, if and only if the secret
  does not overlap the placeholder (`Redaction.SafeMeansAlwaysRedacted`). It looks at the prompt and
  at message texts only: a secret in the arguments of a tool call goes out with the next request
  (`AgentTheorems.SecretsTravelInCallsOnly`, `AgentTheorems.CallCarriesSecret`).
- A profile creation that fails deletes the password filed under its id, also one that belonged to an
  existing profile (`Connections.FailedCreateUndone`); an update whose repository write fails has
  already replaced the password (`Connections.FailedUpdateKeepsNewPassword`); deleting a legacy
  profile that was never repaired leaves its password behind (`Connections.DeleteRemovesPassword`).
- Reading can move a revision: `GetProfile` repairs a legacy profile through the repository, which
  stamps it, so an update loaded before is refused although nothing the user sees has changed
  (`Connections.RepairMovesRevision`).
- `ensureTransactionSession` keeps the session records right if and only if its tab exists or the
  open request fails (`TabSessions.EnsureNeedsItsTab`).

## Model

| member | source | states |
|---|---|---|
| Text.CharClasses | engine/internal/analyzer/parser.go:147-149 | letters, digits and the underscore make up words; six characters are blanks |
| Text.LetterCase | engine/internal/analyzer/parser.go:107-108 | changing the case of a letter gives its counterpart in the other alphabet, and leaves anything else alone |
| Text.EqualFoldIff | engine/internal/analyzer/rollback.go:53-58 | two names are equal up to case if and only if they are so letter by letter |
| Scanner.InLiteralMeansOddQuotes | engine/internal/analyzer/parser.go:113-127 | being inside a literal means having an odd number of single quotes before |
| Scanner.KeywordIndices | engine/internal/analyzer/parser.go:103-105 | the list of top-level keyword positions is strictly increasing and holds exactly the positions outside literals, at paren depth 0, matching without case and between word borders |
| Scanner.SkipDoubledQuote | engine/internal/analyzer/parser.go:115-124 | jumping over a doubled quote changes neither literal state nor depth and misses no keyword and no further statement |
| Scanner.TopLevelKeywordIndices | engine/internal/analyzer/parser.go:106-145 | the skip-ahead loop returns exactly that list |
| Scanner.HasExtraStatement | engine/internal/analyzer/parser.go:153-185 | true exactly if some top-level semicolon is followed by more than blanks |
| Scanner.SliceKeyword | engine/internal/analyzer/parser.go:79-101 | a slice cut at top level between words, scanned from a fresh state, shows a keyword exactly where the whole text does |
| Parser.FirstKeyword | engine/internal/analyzer/parser.go:95-99 | the position used for a tail is a top-level occurrence and no earlier one exists |
| Parser.LastKeyword | engine/internal/analyzer/parser.go:80-84 | the position used for WHERE is a top-level occurrence and no later one exists |
| Parser.StripTrailingClauses | engine/internal/analyzer/parser.go:93-101 | the loop over both tail keywords cuts at the earlier of the two first occurrences and trims |
| Parser.SplitCommas | engine/internal/analyzer/parser.go:191-209 | the in-place loop yields the pieces between the commas met at raw paren depth 0 |
| Parser.SetColumns | engine/internal/analyzer/parser.go:191-216 | the two loops yield, piece by piece, the unquoted names left of the first equals sign |
| WhereClause.SplitFindsWhere | engine/internal/analyzer/parser.go:79-89 | splitWhere reports a WHERE exactly if the body has a top-level one |
| WhereClause.SplitReassembles | engine/internal/analyzer/parser.go:79-89 | the body is the part before, a WHERE word and a remainder; the trimmed remainder is the predicate, blanks, and nothing or a tail that starts with a top-level ORDER BY or LIMIT |
| WhereClause.PredicateIsBare | engine/internal/analyzer/parser.go:79-101 | the predicate, scanned from a fresh state, is trimmed and has no top-level WHERE, ORDER BY or LIMIT |
| WhereClause.StripIsIdempotent | engine/internal/analyzer/parser.go:93-101 | stripTrailingClauses leaves no tail, and applying it twice is applying it once |
| ParserRoundTrip.SplitPrinted | engine/internal/analyzer/parser.go:79-89 | on printed text splitWhere returns the printed part before WHERE and the printed predicate without its tail |
| ParserRoundTrip.UpdateHeadAt | engine/internal/analyzer/parser.go:18 | the UPDATE pattern captures table and body in any letter case and with any blanks between the words |
| ParserRoundTrip.UpdateHead | engine/internal/analyzer/parser.go:18 | the same for printed text, whatever bytes of its class the table has |
| ParserRoundTrip.DeleteHeadAt | engine/internal/analyzer/parser.go:18-19 | the DELETE pattern captures table and body in any letter case and with any blanks, and the UPDATE pattern does not match |
| ParserRoundTrip.DeleteHead | engine/internal/analyzer/parser.go:18-19 | the same for printed text |
| ParserRoundTrip.SetColumnsRoundTrip | engine/internal/analyzer/parser.go:187-216 | for any values: if every comma between assignments is at raw paren depth 0, setColumns returns the printed columns if and only if no value carries a stray assignment; if no value holds a comma, if and only if every comma between assignments is at raw paren depth 0 |
| ParserRoundTrip.CommaFreeColumns | engine/internal/analyzer/parser.go:191-209 | with values free of commas setColumns reports exactly the assignments that start at raw paren depth 0 |
| ParserRoundTrip.FirstTargetReported | engine/internal/analyzer/parser.go:191-216 | whatever the values are, the first reported column is the first one set |
| ParserRoundTrip.StrayHidesLoss | engine/internal/analyzer/parser.go:191-216 | outside those two cases the list can be right by accident: a stray assignment stands in for the column its value hides |
| ParserRoundTrip.UpdateRoundTrip | engine/internal/analyzer/parser.go:38-53 | a text that is a printed UPDATE with any values once its comments are stripped is read back with its verb, table, predicate and the columns of its SET text |
| ParserRoundTrip.DeleteRoundTrip | engine/internal/analyzer/parser.go:54-66 | a text that is a printed DELETE once its comments are stripped is read back as that DELETE, with and without WHERE and tail |
| ParserRoundTrip.ParseUndoesPrint | engine/internal/analyzer/parser.go:28-68 | ParseDML undoes printing, whatever comments are added: a DELETE entirely, an UPDATE always up to SET columns and entirely under the two equivalences of setColumns |
| ParserRefusals.ParsedIsSingleTable | engine/internal/analyzer/parser.go:28-70 | a text that is read holds one statement, no JOIN or USING between blanks in any letter case, and a table without schema |
| ParserRefusals.JoinIsRefused | engine/internal/analyzer/parser.go:33-36 | JOIN or USING between blanks and outside comments is refused, whatever stands around it |
| ParserRefusals.DeleteUsingIsRefused | engine/internal/analyzer/parser.go:33-36 | DELETE FROM t USING is refused, for any word and whatever follows |
| ParserRefusals.UpdateJoinIsRefused | engine/internal/analyzer/parser.go:33-36 | an UPDATE with a join in a value or in its filter is refused |
| ParserRefusals.DottedUpdateIsRefused | engine/internal/analyzer/parser.go:70-73 | UPDATE schema.table is refused, for any words and whatever follows |
| ParserRefusals.DottedDeleteIsRefused | engine/internal/analyzer/parser.go:70-73 | DELETE FROM schema.table is refused, for any words and whatever follows |
| ParserRefusals.QualifiedUpdateIsRefused | engine/internal/analyzer/parser.go:70-73 | so is any table text with a dot between word bytes, quoted or not, in any spelling of the head |
| ParserRefusals.QualifiedDeleteIsRefused | engine/internal/analyzer/parser.go:70-73 | the same for DELETE |
| ParserRefusals.UpdateSpelled | engine/internal/analyzer/parser.go:38-53 | what is read of any spelling of an UPDATE head that is not refused |
| ParserRefusals.DeleteSpelled | engine/internal/analyzer/parser.go:54-66 | the same for DELETE |
| ParserRefusals.ParsedHasHead | engine/internal/analyzer/parser.go:18-19 | and nothing else is read: a text that is read starts with one of these heads, complete with blanks and table |
| ParserRefusals.BlankSetSpelled | engine/internal/analyzer/parser.go:18-19 | a SET clause of two or more blanks is read too, as an UPDATE of a blank body |
| ParserRefusals.QuotedWord | engine/internal/analyzer/parser.go:214-217 | a name in backticks, double quotes or brackets stands for the name |
| ParserRefusals.QuotedColumn | engine/internal/analyzer/parser.go:206-216 | an assignment to a quoted column reports the column's name |
| ParserRoundTrip.CommaInLiteralAddsColumn | engine/internal/analyzer/parser.go:187-190 | counterexample to the comment: a comma inside a well-closed literal adds a column |
| ParserRoundTrip.ParenInLiteralLosesColumn | engine/internal/analyzer/parser.go:197-208 | a parenthesis inside a well-closed literal loses a column that is set |
| CommentStripper.StripIsIdentityIff | engine/internal/analyzer/parser.go:20-21 | stripComments leaves a text alone if and only if it holds no line comment mark and no block comment that is opened and closed, inside literals or not |
| CommentStripper.StrippedIsUncommented | engine/internal/analyzer/parser.go:219-222 | what is left holds no comment, so stripping twice is stripping once |
| CommentStripper.StripsApart | engine/internal/analyzer/parser.go:219-222 | text behind closed comments is stripped on its own |
| ParserComments.HeadSurvives | engine/internal/analyzer/parser.go:38-66 | a printed statement that is not refused keeps verb and table, whatever its comment marks do |
| ParserComments.PredicateIsUncommented | engine/internal/analyzer/parser.go:79-89 | the predicate ParseDML answers never holds a comment, whatever the text is |
| ParserComments.DeleteReadIff | engine/internal/analyzer/parser.go:28-66 | a tail-less DELETE is read back if and only if its predicate holds no comment mark, which is when stripComments leaves the text alone |
| ParserComments.DeleteReadsStripped | engine/internal/analyzer/parser.go:28-66 | otherwise it is read with the stripped predicate, if that is a filter at all |
| ParserComments.UpdateSurvives | engine/internal/analyzer/parser.go:38-53 | when no comment runs from the SET clause into the WHERE clause and the stripped clause is closed, the predicate comes back if and only if it holds no mark, then with the columns of the stripped clause |
| ParserComments.LineMarkCutsUpdate | engine/internal/analyzer/parser.go:20-53 | a line comment mark in a value of a one-line UPDATE takes the filter and every column behind it along |
| ParserComments.MarkInFirstValue | engine/internal/analyzer/parser.go:20-53 | a mark in the first value leaves the first column and nothing else |
| ParserComments.DashInLiteralLosesFilter | engine/internal/analyzer/parser.go:24-27 | the failing UPDATE: a literal of two dashes loses the filter and the next column, with open separators and no stray assignment |
| ParserComments.LiteralLosesComments | engine/internal/analyzer/parser.go:24-27 | a comparison with a literal is read as a comparison with that literal less its comments, which differs if and only if the literal holds a mark |
| ParserComments.BlockInLiteralChangesFilter | engine/internal/analyzer/parser.go:24-27 | a failing DELETE: a literal that looks like an empty block comment is read as one blank |
| ParserComments.BlockAcrossLiterals | engine/internal/analyzer/parser.go:24-27 | the failing DELETE: a block comment opened in one literal and closed in another makes one comparison of two |
| ParserComments.SecondStatementRefused | engine/internal/analyzer/parser.go:151-185 | a text that is a printed statement, a semicolon and more than blanks once its comments are stripped is turned away |
| ParserComments.SecondStatementSeenIff | engine/internal/analyzer/parser.go:28-32 | behind an accepted one-line statement without block comments a second statement is refused if and only if the first holds no line comment mark |
| ParserComments.MarkInLiteralHidesStatement | engine/internal/analyzer/parser.go:28-32 | a line comment mark in the literal of a one-line DELETE hides whatever follows it |
| ParserComments.DashHidesSecondStatement | engine/internal/analyzer/parser.go:28-32 | the failing text: a DROP TABLE behind such a DELETE is accepted as part of it |
| SqlBuild.FirstByNameKeepsNames | engine/internal/analyzer/sqlbuild.go:43-56 | the selected columns name the same columns as key and SET columns together, and no two differ only in case |
| SqlBuild.BuildSnapshotSQL | engine/internal/analyzer/sqlbuild.go:39-58 | the two loops over a shared map select those columns in order; a DELETE selects everything |
| Rollback.QuoteAll | engine/internal/analyzer/rollback.go:32-35 | one quoted name per column, in order |
| Rollback.FormatRow | engine/internal/analyzer/rollback.go:39-42 | one literal per cell, in order |
| Rollback.InsertLine | engine/internal/analyzer/rollback.go:37-43 | the line written for a row is the text of its INSERT statement |
| Rollback.BuildDeleteRollback | engine/internal/analyzer/rollback.go:31-46 | the buffer holds the text of one INSERT per snapshot row, in order |
| Rollback.ColumnPositions | engine/internal/analyzer/rollback.go:60-63 | the map leads from a lower-cased name to the last column of that name, and has no other keys |
| Rollback.SetsKey | engine/internal/analyzer/rollback.go:53-59 | true exactly if a key column is set, case ignored |
| Rollback.AllIndexed | engine/internal/analyzer/rollback.go:64-73 | true exactly if every name is a snapshot column |
| Rollback.SettingsText | engine/internal/analyzer/rollback.go:77-82 | one "column = literal" per name, with the cell of the snapshot column of that name |
| Rollback.UpdateLine | engine/internal/analyzer/rollback.go:76-84 | the line written for a row is the text of the UPDATE that restores the SET columns under the row's key |
| Rollback.BuildUpdateRollback | engine/internal/analyzer/rollback.go:48-87 | refused exactly if a key column is set or a column is missing; otherwise one UPDATE per snapshot row, in order |
| Rollback.BuildRollbackSQL | engine/internal/analyzer/rollback.go:14-29 | answers exactly when there is a plan, with that plan's text |
| Rollback.SnapshotNeverMisses | engine/internal/analyzer/rollback.go:53-73 | on the columns BuildSnapshotSQL selects, an UPDATE is refused exactly for no rows, no key, or a set key column |
| RollbackLexing.IdentReads | engine/internal/analyzer/sqlbuild.go:7-16 | a reader that knows the marks of each dialect (backticks for mysql, brackets for sqlserver, double quotes otherwise) lexes the quoted identifier as that name, in front of every delimiter the generator prints |
| RollbackLexing.QuoteReads | engine/internal/analyzer/literal.go:57-59 | every quoted string lexes as that string |
| RollbackLexing.IntReads | engine/internal/analyzer/literal.go:21-28 | every integer lexes and parses as itself |
| RollbackLexing.IntIsCanonical | engine/internal/analyzer/literal.go:21-24 | an integer is printed without leading zeros, and with a minus sign if and only if it is negative |
| RollbackLexing.LiteralReads | engine/internal/analyzer/literal.go:15-55 | NULL, boolean, integer and string literals read back as the cell in the driver's stored form |
| RollbackRoundTrip.ScriptLexes | engine/internal/analyzer/rollback.go:31-87 | the text of any plan lexes to the tokens of its statements, one after the other |
| RollbackRoundTrip.InsertParses | engine/internal/analyzer/rollback.go:37-43 | the tokens of an INSERT parse as that INSERT and leave what follows, unless a list is empty |
| RollbackRoundTrip.UpdateParses | engine/internal/analyzer/rollback.go:76-84 | the tokens of an UPDATE parse as that UPDATE and leave what follows, unless a list is empty |
| RollbackRoundTrip.UndoTextReadsBack | engine/internal/analyzer/rollback.go:31-87 | for every driver, names and cells the undo text reads back as exactly the planned statements in order, if and only if no statement has an empty list |
| RollbackRoundTrip.PlanIsComplete | engine/internal/analyzer/rollback.go:14-29 | a plan has one statement per snapshot row, and an empty list only for a DELETE without columns or an UPDATE without SET columns |
| RollbackRoundTrip.SnapshotReadsBack | engine/internal/analyzer/sqlbuild.go:39-58 | the snapshot query reads back as the columns, the table and the predicate it was built for |
| RollbackEndToEnd.SnapshotQueryAsksFor | engine/internal/analyzer/sqlbuild.go:18-23 | the rows the snapshot query asks for are those the undo theorems take as snapshotted |
| RollbackRestore.KeyFindsItsRow | engine/internal/analyzer/rollback.go:80-84 | after an UPDATE of other columns the key of a snapshot row still selects that row and no other |
| RollbackRestore.DirectScriptRestores | engine/internal/analyzer/rollback.go:75-85 | running one restoring UPDATE per snapshotted row, in order, turns the changed table back into the original |
| RollbackRestore.DirectScriptRestoresIff | engine/internal/analyzer/rollback.go:75-85 | it does so if and only if nothing but named columns of addressed rows differs |
| RollbackRestore.RollbackUndoesUpdate | engine/internal/analyzer/rollback.go:48-87 | for a table with a unique non-null key the undo text, read and run, gives back the original table if and only if the statement changed nothing but reported SET columns of snapshotted rows; the text is readable if and only if there is a SET column |
| RollbackRestore.SnapshotUndoesUpdate | engine/internal/analyzer/sqlbuild.go:43-57 | with the columns of BuildSnapshotSQL the undo is never refused and restores under the same condition |
| RollbackRestore.DeleteUndoAppends | engine/internal/analyzer/rollback.go:31-46 | the undo text of a DELETE, read and run, adds exactly the snapshotted rows, column by column |
| RollbackRestore.RollbackUndoesDelete | engine/internal/analyzer/rollback.go:31-46 | undoing a DELETE of some of the snapshotted rows leaves the original table plus the surviving snapshotted rows, as multisets; nothing is added if and only if as many rows went as the snapshot holds |
| RollbackEndToEnd.SnapshotIsMeant | engine/internal/analyzer/parser.go:79-101 | the parsed predicate selects the rows the printed statement is about, ORDER BY and LIMIT left aside, for every text that spells it |
| RollbackEndToEnd.SnapshotRightIff | engine/internal/analyzer/parser.go:28-101 | for a tail-less DELETE that is so, whatever the predicates select, if and only if its predicate holds no comment mark |
| RollbackEndToEnd.UpdateTextIsUndone | engine/internal/analyzer/rollback.go:48-87 | an UPDATE given as text, parsed, snapshotted, run with one effect it may have and undone from the generated text, leaves the original table if and only if every changed cell lies in a reported column; with open separators it always does |
| RollbackEndToEnd.UndoesEveryEffectIff | engine/internal/analyzer/rollback.go:48-87 | for any parsed statement: the undo restores the table whatever the UPDATE changes if and only if every cell it may change lies in a snapshotted row and a reported column |
| RollbackEndToEnd.UpdateTextAlwaysUndone | engine/internal/analyzer/rollback.go:48-87 | for a text that spells the UPDATE that means: every set column the table has is reported |
| RollbackEndToEnd.CommaFreeUpdateAlwaysUndone | engine/internal/analyzer/parser.go:191-209 | with comma-free values and distinct targets of the table: if and only if every comma between assignments is at raw paren depth 0 |
| RollbackEndToEnd.CutUpdateAlwaysUndone | engine/internal/analyzer/parser.go:20-53 | with a line comment mark in a value of a one-line UPDATE: if and only if it sets no column of the table behind the mark |
| RollbackEndToEnd.DeleteTextIsUndone | engine/internal/analyzer/rollback.go:31-46 | a DELETE given as text comes back without ORDER BY and LIMIT; its undo restores the table if and only if every snapshotted row went, and otherwise adds the surviving ones |
| RollbackEndToEnd.DeleteUndoneIff | engine/internal/analyzer/rollback.go:31-46 | every unlimited DELETE with a predicate is undone, whatever the predicates select, if and only if its predicate holds no comment mark |
| RollbackEndToEnd.LimitedDeleteIsUndone | engine/internal/analyzer/parser.go:91-101 | a DELETE with LIMIT n, with or without WHERE, is undone if and only if no more than n rows satisfy its predicate |
| NoiseStripper.Cleaned | engine/internal/agent/mcp_scope.go:111-171 | every output byte is the input byte or a blank, at the same position |
| NoiseStripper.StripNoise | engine/internal/agent/mcp_scope.go:111-171 | the flag-driven loop blanks exactly what the byte-by-byte automaton calls literal or comment |
| NoiseStripper.CleanedIsNoiseFree | engine/internal/agent/mcp_scope.go:111-171 | the output has no single quote, no "--" and no "/*" |
| NoiseStripper.CleaningIsIdempotent | engine/internal/agent/mcp_scope.go:111-171 | cleaning twice is cleaning once |
| NoiseStripper.FixedMeansNoiseFree | engine/internal/agent/mcp_scope.go:111-171 | text is left alone exactly if it has no quote and opens no comment |
| NoiseStripper.HiddenByteIsBlanked | engine/internal/agent/mcp_scope.go:111-171 | changing a byte inside a literal or comment, without ending it, leaves the cleaned text as it is |
| NoiseStripper.BlankedIsLiteral | engine/internal/analyzer/parser.go:113-127 | the blanked positions are the quotes and exactly what the analyzer's scanner takes for literal if and only if no comment opens outside a literal |
| QueryPolicy.SkipLine | engine/internal/domain/policy.go:134-142 | the line comment branch stops at the newline and writes it, or at the end of the text and writes nothing |
| QueryPolicy.SkipBlock | engine/internal/domain/policy.go:144-152 | the block comment branch writes one blank and stops at the last byte of a closed comment, past the text for an open one |
| QueryPolicy.StripSQLComments | engine/internal/domain/policy.go:129-156 | the index loop returns the text without its comments |
| QueryPolicy.StripCommentsIsIdempotent | engine/internal/domain/policy.go:129-156 | stripping twice is stripping once, and changes nothing exactly on comment-free text |
| QueryPolicy.StrippersAgree | engine/internal/domain/policy.go:129-156 | on text without quotes both strippers leave the same visible characters in the same order |
| QueryPolicy.StrippersDisagreeOnLiterals | engine/internal/agent/mcp_scope.go:111-171 | with a quote they differ: the classifier's stripper sees a comment inside a literal |
| QueryPolicy.VerdictIgnoresComments | engine/internal/domain/policy.go:26-76 | removing the comments first never changes the verdict |
| QueryVerdict.ReadOnlyIff | engine/internal/domain/policy.go:26-76 | a single statement is read-only, in any letter case and behind any comments, blanks and open parentheses, if and only if its first word is one of the six reading words, or WITH without a writing word anywhere |
| QueryVerdict.DestructiveIff | engine/internal/domain/policy.go:41-76 | it is destructive if and only if its first word is one of six, or DELETE or UPDATE without a WHERE between plain blanks, or CREATE of a user or role |
| QueryVerdict.OtherVerdicts | engine/internal/domain/policy.go:29-39 | several statements are never read-only and always destructive; nothing to run is harmless |
| QueryVerdict.LiteralHidesMissingWhere | engine/internal/domain/policy.go:57-60 | a WHERE inside a literal makes an UPDATE without WHERE clause pass as not destructive, although the analyzer's scanner sees no WHERE |
| QueryPolicy.MultipleMeansSecond | engine/internal/domain/policy.go:122-125 | several statements are reported exactly if a semicolon is followed by something other than semicolons and blanks |
| QueryPolicy.StrippedReadOnlyIsOne | engine/internal/domain/policy.go:26-39 | of a read-only query the classifier knows only this: in the text its stripper leaves, nothing but semicolons and blanks follows a semicolon |
| QueryPolicy.ReadOnlyIsOneStatement | engine/internal/domain/policy.go:26-39 | a read-only query without comment marks in its literals holds one statement: outside literals and comments nothing but semicolons and blanks follows a semicolon |
| QueryPolicy.AppendedStatementIff | engine/internal/domain/policy.go:118-125 | a visible statement behind a read-only query, with nothing in it that ends a comment, goes unnoticed if and only if the stripper reaches it inside a comment |
| QueryPolicy.DashHidesStatement | engine/internal/domain/policy.go:118-121 | behind a literal with a line comment mark in it any statement of the same line is answered as read-only, although the analyzer's scanner and whoever leaves out literals and comments see it |
| QueryPolicy.DropIsReadOnly | engine/internal/domain/policy.go:118-121 | the failing query: a DROP TABLE behind a SELECT of two dashes |
| QueryPolicy.SecondStatementIsMulti | engine/internal/domain/policy.go:34-39 | a visible second statement always makes the script MULTI and destructive |
| Redaction.Redact | engine/internal/agent/service.go:62-70 | the loop replaces the secrets one after the other and skips empty ones |
| Redaction.SafeMeansAlwaysRedacted | engine/internal/agent/service.go:60-70 | a secret is gone from every text under every list of secrets that holds it if and only if it neither contains, nor lies in, nor overlaps an edge of the placeholder |
| Redaction.RedactIsComplete | engine/internal/agent/service.go:60-70 | such a secret does not occur in the result, whatever the other secrets are, so no replacement re-creates it |
| Redaction.OverlapSurvives | engine/internal/agent/service.go:60-70 | every other secret comes back in some text that does not hold it, when the replacement of a second secret writes the placeholder |
| Redaction.NoSharedCharacterIsSafe | engine/internal/agent/service.go:60-70 | sharing no character with the placeholder is enough to be always redacted |
| Redaction.RedactKeepsCleanText | engine/internal/agent/service.go:60-70 | text without secrets is not touched |
| Redaction.SecretInsidePlaceholderLeaks | engine/internal/agent/service.go:67 | a secret contained in the placeholder is still there after redaction |
| Agent.AgentService.constructor | engine/internal/agent/service.go:31-40 | a step limit that is not positive becomes 16, everything else starts empty |
| Agent.AgentService.SetPolicy | engine/internal/agent/service.go:43 | only the exposure policy changes |
| Agent.AgentService.SetSecrets | engine/internal/agent/service.go:50 | only the secrets change |
| Agent.AgentService.SetDomainContext | engine/internal/agent/service.go:54 | only the domain text changes |
| Agent.AgentService.SetResponseLanguage | engine/internal/agent/service.go:58 | only the response language changes |
| Agent.AgentService.AssembleRequest | engine/internal/agent/service.go:73-93 | the request is the system prompt and the messages, redacted message by message when there are secrets |
| Agent.AgentService.Run | engine/internal/agent/service.go:116-165 | the bounded loop takes exactly the steps of the run function: requests, dispatched calls, messages, emitted events and outcome |
| AgentTheorems.RunFinishes | engine/internal/agent/service.go:128-164 | for every provider and tools, request i shows the conversation and the first i call pairs, turn i asked for call i, requests never exceed the limit, and the outcome fits the counts |
| AgentTheorems.MaxStepsMeansMaxCalls | engine/internal/agent/service.go:128-164 | the max-steps error means exactly the limit of dispatches, and nothing else does |
| AgentTheorems.TranscriptPairs | engine/internal/agent/service.go:159-162 | after n calls the messages are the conversation and n assistant/tool pairs with matching call id and tool name |
| AgentTheorems.LastCallIsDispatched | engine/internal/agent/service.go:134-151 | of several calls in one turn the last is dispatched, and a run is answered only by a turn without any |
| AgentTheorems.PromptIsComplete | engine/internal/agent/service.go:73-86 | every request of a run without secrets carries the base prompt, a domain text that is not blank, the note of its language, and all tools |
| AgentTheorems.NoSecretIsSent | engine/internal/agent/service.go:84-92 | no request of any run shows a safe registered secret in its system prompt or in a message text, whatever the other secrets are |
| AgentTheorems.SecretsTravelInCallsOnly | engine/internal/agent/service.go:88-91 | a whole request is free of such a secret if and only if the conversation and the tool list carry it in no other field and none of the tool calls made so far has it in its id, name or arguments |
| AgentTheorems.CallCarriesSecret | engine/internal/agent/service.go:159-162 | when the first turn asks for a call that names the secret, the second request carries it |
| AgentTheorems.RowsDoNotReachProvider | engine/internal/agent/service.go:96-111 | two-run noninterference: under every exposure but "" and "unrestricted", run_select, explain_query and profile_table results that differ only in rows and truncation lead to the same requests, calls and outcome |
| AgentTheorems.ShownAlikeIff | engine/internal/agent/service.go:98-111 | and nothing else is hidden: two results are shown to the model alike if and only if they are equal or differ in withheld rows |
| AgentTheorems.WithheldShows | engine/internal/agent/service.go:102-109 | of a withheld result set the model sees columns, row count and the reason |
| AgentTheorems.OtherDifferencesShow | engine/internal/agent/service.go:98-111 | under every policy any other difference in the result of the first call shows in the second request |
| AgentTheorems.RowsReachProviderUnrestricted | engine/internal/agent/service.go:98-101 | without such a policy different results of the first call show in the second request |
| TabEditor.Editor.constructor | apps/renderer/src/components/QueryEditor.tsx:321-361 | a new editor has one tab and no session, and satisfies the ownership invariant |
| TabEditor.Editor.UpdateTabTransaction | apps/renderer/src/components/QueryEditor.tsx:321-324 | only the transaction fields of the named tab change |
| TabEditor.Editor.CloseTransactionSession | apps/renderer/src/components/QueryEditor.tsx:352-361 | the new state of all records after a successful, failed or needless close |
| TabEditor.Editor.EnsureTransactionSession | apps/renderer/src/components/QueryEditor.tsx:326-350 | reuses, refuses, or closes and reopens, with the new state of all records |
| TabEditor.Editor.OpenSession | apps/renderer/src/components/QueryEditor.tsx:339-349 | both endings of the open request |
| TabEditor.Editor.SendStatement | apps/renderer/src/components/QueryEditor.tsx:927-935 | a statement goes out only on an open session that has the permission asked for, and the invariant is kept |
| TabEditor.Editor.ChangeTabWriteMode | apps/renderer/src/components/QueryEditor.tsx:363-392 | the new state, the invariant, and no permission changed |
| TabEditor.Editor.SetTransactionMode | apps/renderer/src/components/QueryEditor.tsx:394-415 | the new state; no session is touched |
| TabEditor.Editor.EndTransaction | apps/renderer/src/components/QueryEditor.tsx:417-434 | the new state after commit or rollback, successful or not |
| TabEditor.Editor.FinishTransaction | apps/renderer/src/components/QueryEditor.tsx:417-434 | the same state keeps the invariant; no session is touched |
| TabEditor.Editor.CloseOneByOne | apps/renderer/src/components/QueryEditor.tsx:1383-1402 | the loop closes tab after tab and stops at the first failure |
| TabEditor.Editor.CloseQueryTabs | apps/renderer/src/components/QueryEditor.tsx:1370-1408 | the new state, the invariant, and no permission changed |
| TabSessions.EnsureGivesPermission | apps/renderer/src/components/QueryEditor.tsx:326-350 | the session handed out is open, recorded for its tab, and has the permission asked for |
| TabSessions.EnsureNeedsItsTab | apps/renderer/src/components/QueryEditor.tsx:326-350 | the records stay right if and only if the tab exists or the open request fails |
| TabSessions.BusySessionStays | apps/renderer/src/components/QueryEditor.tsx:331-336 | with a transaction open, asking for another permission or write mode changes nothing |
| TabSessions.BusySessionIsKept | apps/renderer/src/components/QueryEditor.tsx:326-450 | with a transaction open no handler replaces the session or its permission; it only ends when the user confirms closing |
| TabSessions.StepKeepsInv | apps/renderer/src/components/QueryEditor.tsx:326-450 | every handler keeps: open sessions are exactly the recorded ones, one tab each, with the recorded permission |
| TabSessions.RunsKeepInv | apps/renderer/src/components/QueryEditor.tsx:326-450 | the same over every run; no session changes permission or reopens |
| TabSessions.CloseEachKeepsInv | apps/renderer/src/components/QueryEditor.tsx:1383-1402 | closing any list of tabs keeps the invariant at whatever tab it stops |
| TabSessions.RunsCompose | apps/renderer/src/components/QueryEditor.tsx:326-450 | a run is its steps, one after the other |
| TabOutcomes.WriteModeIsSetIff | apps/renderer/src/components/QueryEditor.tsx:363-392 | a tab has the write mode asked for if and only if it had it, or no transaction is open and its session could be closed; then it has none |
| TabOutcomes.ModeIsSetIff | apps/renderer/src/components/QueryEditor.tsx:394-415 | a tab has the transaction mode asked for if and only if it had it, or an open transaction could be rolled back with consent and its session configured |
| TabOutcomes.TransactionEnds | apps/renderer/src/components/QueryEditor.tsx:417-434 | after commit or rollback the transaction is over, or failed |
| TabOutcomes.SessionIsClosedIff | apps/renderer/src/components/QueryEditor.tsx:436-450 | one tab's session goes if and only if the engine closes it and, with a transaction open, the user agrees |
| TabOutcomes.TabsAreClosedUnless | apps/renderer/src/components/QueryEditor.tsx:1370-1384 | tabs are closed unless one is running, or one has an open transaction and the user does not agree |
| TabOutcomes.ClosedTabsAreGone | apps/renderer/src/components/QueryEditor.tsx:1383-1402 | closed tabs are gone, every other tab is as it was, and at least one tab is left |
| TabOutcomes.NewTabIsPlain | apps/renderer/src/components/QueryEditor.tsx:1364-1368 | a new tab commits by itself and has no session, no transaction and no write permission |
| MultiRun.Tab.EditQuery | apps/renderer/src/components/QueryEditor.tsx:791-795 | an edited query forgets the run and nothing else |
| MultiRun.Tab.DismissPolicy | apps/renderer/src/components/QueryEditor.tsx:1359-1362 | the pending run and prompt go, results stay |
| MultiRun.Tab.RunLoop | apps/renderer/src/components/QueryEditor.tsx:938-1030 | database, results, pending run and statement states after the loop are those of the run function |
| MultiRun.Tab.RunMultiStatements | apps/renderer/src/components/QueryEditor.tsx:873-1063 | the whole new state for a first run, a resumed one, one without a plan, and a session that cannot be opened |
| MultiRun.Tab.Resume | apps/renderer/src/components/QueryEditor.tsx:1082-1102 | continues the pending run at its statement with the results collected so far, under options in which each of the five is what the user decided and otherwise what the blocked run had; the whole new state also when there is nothing to resume or no session |
| MultiRun.GrantGetsPast | apps/renderer/src/components/QueryEditor.tsx:1089-1098 | a run blocked for want of one option gets past its statement if and only if the user granted that option; one left open is seen as the blocked run had it |
| MultiRun.LastDecisionHolds | apps/renderer/src/components/QueryEditor.tsx:1089-1098 | over any number of resumptions the last decision about an option holds |
| MultiRun.RunKeepsOrder | apps/renderer/src/components/QueryEditor.tsx:938-1030 | result i belongs to statement i, one per executed statement, and only the last can carry an error |
| MultiRun.StatesHaveShape | apps/renderer/src/components/QueryEditor.tsx:1048-1062 | after a run, resumed or not, a statement is marked success, error or skipped exactly as its result, or the lack of one, says; only the last result can carry an error |
| MultiRun.RunEffect | apps/renderer/src/components/QueryEditor.tsx:939-1030 | the final database is the effect of exactly the executed statements, each once and in order |
| MultiRun.ResumeEqualsUninterrupted | apps/renderer/src/components/QueryEditor.tsx:873-1063 | blocked anywhere and resumed with permission, a run ends in the same database, results and stop as one permitted run |
| MultiRun.ResumesEqualUninterrupted | apps/renderer/src/components/QueryEditor.tsx:1082-1102 | however often a run is blocked and resumed, it ends in the same database, results and stop as one run under everything granted |
| MultiRun.ResumeCanDiffer | apps/renderer/src/components/QueryEditor.tsx:1082-1102 | without the condition that options only block, resuming can end elsewhere |
| Connections.ConnectionService.WriteBack | engine/internal/adapters/sqlite/sqlite_profile_repository.go:91-117 | the repository update stamps the profile and keeps the stored creation time |
| Connections.ConnectionService.CreateProfile | engine/internal/application/connection_service.go:53-79 | both stores and the answer after success and after each failing call, the clean-up included |
| Connections.ConnectionService.GetProfile | engine/internal/application/connection_service.go:81-112 | the same, with the repair of an empty reference, which stamps the profile |
| Connections.ConnectionService.UpdateProfile | engine/internal/application/connection_service.go:118-155 | the same, with revision check and kept reference |
| Connections.ConnectionService.DeleteProfile | engine/internal/application/connection_service.go:157-175 | the same; a failing secret store is ignored |
| Connections.ConnectionService.ChangeSettings | engine/internal/application/connection_service.go:238-260 | only the pass-through fields and the revision of the profile change |
| Connections.ConnectionService.StoreKey | engine/internal/application/connection_service.go:180-217 | only the provider's own key changes |
| Connections.ConnectionService.DropKey | engine/internal/application/connection_service.go:196-227 | only the provider's own key goes |
| Connections.RefsDiffer | engine/internal/application/connection_service.go:51 | references of different profiles, providers and namespaces differ |
| Connections.StepIsLocal | engine/internal/application/connection_service.go:53-233 | an operation reaches only its own profile and password, or its own provider's key |
| Connections.RunsAreLocal | engine/internal/application/connection_service.go:53-233 | over every run references stay empty or "secret-"+id, and untouched profiles, passwords and keys stay as they were |
| Connections.GetAnswersPassword | engine/internal/application/connection_service.go:81-112 | the answered password is the stored one or empty; no secret is written, and no profile but a legacy one with a stored password, which gets its reference and a new revision |
| Connections.UpdateKeepsOrSetsPassword | engine/internal/application/connection_service.go:129-145 | a blank password keeps the stored one, a new one is what the next read answers |
| Connections.CreateThenGet | engine/internal/application/connection_service.go:53-112 | a created profile is read back with its password |
| Connections.SettingsAreReadBack | engine/internal/application/connection_service.go:235-260 | changed settings are what a read answers, until an update, another change or a deletion, over any run in between |
| Connections.UpdateIsReadBack | engine/internal/application/connection_service.go:118-155 | so are those of a successful update |
| Connections.KeyIsReadBack | engine/internal/application/connection_service.go:180-233 | a key that is set is what its place in the secret store holds, and one that is cleared is gone, over any run in between |
| Connections.FailedCreateUndone | engine/internal/application/connection_service.go:66-76 | a failed create leaves everything as it was if and only if the id had no password, or, when the clean-up fails too, the same one |
| Connections.FailedUpdateKeepsNewPassword | engine/internal/application/connection_service.go:139-149 | a failed update leaves everything as it was if and only if it brought no new password |
| Connections.DeleteRemovesPassword | engine/internal/application/connection_service.go:157-175 | the password goes if and only if the reference was set or there was none |
| Connections.RevisionGuardsUpdate | engine/internal/application/connection_service.go:126-136 | with increasing stamps an update carrying a revision succeeds if and only if the profile exists and no repository write of it succeeded since |
| Connections.SettingsChangeRefusesUpdate | engine/internal/application/connection_service.go:235-260 | an update loaded before a settings change is refused, so the change is never overwritten |
| Connections.RepairMovesRevision | engine/internal/application/connection_service.go:104-109 | reading a legacy profile whose password is stored moves its revision: an update loaded before is refused, one loaded by that read is accepted |
| Proposals.ProposalService.PickCandidate | engine/internal/application/mcp_connection_proposal_service.go:33-39 | the first candidate with the id that is itself valid, if there is one |
| Proposals.ProposalService.FillTarget | engine/internal/application/mcp_connection_proposal_service.go:47-79 | the fields of a create or update proposal, and every refusal |
| Proposals.ProposalService.ProposeConnection | engine/internal/application/mcp_connection_proposal_service.go:25-102 | the created proposal and the new store, or no change |
| Proposals.ProposalService.ResolveProposal | engine/internal/application/mcp_connection_proposal_service.go:111-138 | the new store and the answer in every case |
| Proposals.ProposalComesFromDiscovery | engine/internal/application/mcp_connection_proposal_service.go:33-96 | an accepted proposal is valid and pending, its endpoint is a valid discovered candidate, and an update keeps driver and revision of its target |
| Proposals.CandidateIsLocal | engine/internal/application/mcp_connection_proposal_service.go:33-39 | the endpoint taken is the first local one with the asked id, and there is one if and only if one was discovered |
| Proposals.ProposedIff | engine/internal/application/mcp_connection_proposal_service.go:25-102 | a proposal is made if and only if it creates or updates, its target fits, the endpoint is a discovered SQL one, name and TLS mode are allowed, and the ids are new |
| Proposals.FieldsAreKept | engine/internal/application/mcp_connection_proposal_service.go:47-96 | a field the caller gave is kept; an empty one is the target's, or a default |
| Proposals.ValidIff | engine/internal/domain/mcp_connection_proposal.go:42-87 | what a valid proposal is, condition by condition |
| Proposals.ResolveIff | engine/internal/application/mcp_connection_proposal_service.go:111-138 | a resolution succeeds if and only if the proposal is of that workspace and pending, or already is what is asked for; marking applied makes it applied, rejecting rejected, and nothing else changes |
| Proposals.StepFollows | engine/internal/application/mcp_connection_proposal_service.go:25-138 | each operation keeps all proposals valid and changes none but a pending one's status |
| Proposals.RunsFollow | engine/internal/domain/mcp_connection_proposal.go:42-87 | in every reachable store each proposal is valid, its fields are those of its creation, and a status leaves pending at most once |
| Proposals.ResolvedIsFinal | engine/internal/application/mcp_connection_proposal_service.go:122-127 | after a resolution, whatever happens since, the same action is a successful no-op and any other fails |
| McpScope.ParseMCPTableRef | engine/internal/agent/mcp_scope.go:36-66 | the loop that trims parts in place returns the reference, or refuses an empty or too long one |
| McpScope.DottedNamesReadBack | engine/internal/agent/mcp_scope.go:36-66 | plain names joined by dots are read back as database, schema and table, with the default schema of each dialect |
| McpScope.FourNamesAreRefused | engine/internal/agent/mcp_scope.go:42-44 | more than three names are no reference |
| McpScope.EmptyNameIsRefused | engine/internal/agent/mcp_scope.go:45-50 | an empty name between two dots is no reference, and no scope lets it through |
| McpScope.TrailingDotIsIgnored | engine/internal/agent/mcp_scope.go:37 | a dot behind a reference makes no difference |
| McpScope.QuotedPartIsClean | engine/internal/agent/mcp_scope.go:45-50 | quote marks around a name, and blanks inside them, are not part of it |
| McpScope.RefAllowedIff | engine/internal/agent/mcp_scope.go:68-84 | a reference is let through if and only if database, schema and table are on their lists, where there are any; a table may be listed with its schema |
| McpScope.QueryAllowedIff | engine/internal/agent/mcp_scope.go:90-109 | a query is let through if and only if there is no list, or every reference outside literals and comments is let through and FROM or JOIN shows one |
| McpScope.OutsideTableIsRefused | engine/internal/agent/mcp_scope.go:90-109 | a reference to a table outside a list of tables makes the whole query refused |
| McpScope.ScopeIgnoresNoise | engine/internal/agent/mcp_scope.go:90-109 | two queries that differ in a byte inside a literal or comment get the same scope verdict |
| McpRegistry.CollectRows | engine/internal/agent/tools.go:108-130 | at most 200 rows are kept, the first ones, and truncation is reported exactly if a row is missing |
| McpRegistry.ToolRegistry.AddTool | engine/internal/agent/tools.go:165-168 | the tool is put under its name and appended to the order |
| McpRegistry.ToolRegistry.DispatchTool | engine/internal/agent/tools.go:157-163 | a known tool runs, an unknown one is refused |
| McpRegistry.ToolRegistry.AddAll | engine/internal/agent/tools.go:165-168 | a group of metadata tools is added one after the other |
| McpRegistry.ToolRegistry.AddReads | engine/internal/agent/tools.go:268-668 | the tools up to the last diagnostic one, in the order of the source |
| McpRegistry.ToolRegistry.constructor | engine/internal/agent/tools.go:268-772 | a profile's registry is built by adding one tool after the other, the last two only where they may be |
| McpRegistry.ToolOrder | engine/internal/agent/tools.go:308-771 | the order in which a profile's tools are listed; execute_write and write_proposal_status exclude each other |
| McpRegistry.SqlTools | engine/internal/agent/tools.go:268-772 | each name runs its own tool; execute_write exists exactly for a writable full_access profile, write_proposal_status exactly where proposals are stored for approval |
| McpRegistry.ReadsStayInScope | engine/internal/agent/tools.go:300-668 | run_select and explain_query send their statement once, read-only and for the asked database, if and only if it is in scope |
| McpRegistry.WriteStaysInScope | engine/internal/agent/tools.go:711-744 | execute_write sends its statement once, for writing, if and only if the profile is writable and full_access and the statement is in scope and not read-only |
| McpRegistry.ProposalsSendNothing | engine/internal/agent/tools.go:669-772 | a proposal is made if and only if its statement is in scope; neither it nor its status sends anything |
| McpRegistry.MetadataDoes | engine/internal/agent/tools.go:268-668 | a metadata tool sends its own queries, in order and read-only, or refuses |
| McpRegistry.UniqueTargets | engine/internal/agent/mcp_profiles.go:126-140 | distinct usable targets, of each id the first |
| McpRegistry.IndexTargets | engine/internal/agent/mcp_profiles.go:142-148 | the map leads from each id to its target and has no other keys |
| McpRegistry.RunShared | engine/internal/agent/mcp_profiles.go:98-122 | a call is the named target's own dispatch without connectionId, or a refusal |
| McpRegistry.SharedRegistry.AddNames | engine/internal/agent/mcp_profiles.go:78-84 | names of one registry are appended unless already there |
| McpRegistry.SharedRegistry.Advertise | engine/internal/agent/mcp_profiles.go:75-85 | the listed tools are the union over the targets, each once, in order of first appearance |
| McpRegistry.SharedRegistry.constructor | engine/internal/agent/mcp_profiles.go:32-85 | the shared registry keeps the first target of each id and lists list_connections first |
| McpRegistry.SharedRegistry.Call | engine/internal/agent/mcp_profiles.go:32-124 | a listed tool is routed over the targets of the moment, anything else sends nothing |
| McpRegistry.RoutingRefinesDispatch | engine/internal/agent/mcp_profiles.go:98-122 | routing equals dispatch on the first usable target with the id, or touches none |
| McpRegistry.LaterTargetsDoNotMatter | engine/internal/agent/mcp_profiles.go:126-140 | an unusable or repeated target makes no difference to any call |
| McpRegistry.SentCompose | engine/internal/agent/mcp_profiles.go:98-122 | every call of a run adds what it sends itself |
| McpRegistry.WritesAreLegitimate | engine/internal/agent/tools.go:711-744 | over every call sequence a statement runs without the read-only flag only through execute_write, for a writable full_access profile, inside its scope, and not classified read-only |
| McpRegistry.WriteRunsIffAllowed | engine/internal/agent/tools.go:711-744 | execute_write sends its statement once if all of that holds, and nothing otherwise |

## Left out

- Non-ASCII text: the scanners compare upper-cased text with positions of the original, which only fits when the two have equal length.
- Floats, times and byte strings as cells, and MySQL backslash escapes: the float and time formats are library text, and the code does not handle the escapes.
- Full SQL: the undo reader and the table semantics know only the statements the generator prints; column types, coercion and a server's own identifier folding are not modelled.
- BuildCountSQL, BuildPreviewSQL, the risk levels and the tenant check: one-line texts over parts that are modelled.
- The two regular expressions of the access scope, the queries a metadata tool sends and `ConnectionProfile.Validate` are unknown functions.
- MCP tool descriptions, schemas, diagnostic SQL, metadata and proposal answers, and FilterMCPTableNames: data, or reads that no theorem here needs.
- Tunnels, context cancellation inside a tool call, and error texts; a failure is one `Err` or refusal.
- Stored times are taken to read back as they were written, and the repository's normalization of a stored write mode is part of the unread settings.
- Query tabs: handlers run as one step each; rendering, result grids, cancelling a statement in flight, closing all sessions when the profile changes, and the session id cached in a pending run are not modelled.
- The branch of runMultiStatements for a statement that brings neither a result nor a policy is not modelled: the statement runner always brings one of the two.
- Discovery and its ordering, proposal listing, HTTP handlers, IPC, drivers, the keychain and migrations.
- RollbackLexing.LiteralReads: covers NULL, booleans, integers and strings; floats, times, byte strings and the default formatting of other values have no cell, because their text is a library's.
- AgentTheorems.NoSecretIsSent: speaks of the prompt and the message texts, which is all the code redacts; what goes out in other fields is stated exactly by AgentTheorems.SecretsTravelInCallsOnly.
- ParserComments.UpdateSurvives: says nothing of a comment that runs from a SET value into the WHERE clause; on one line with a line comment mark that is ParserComments.LineMarkCutsUpdate, otherwise what is read is the stripped statement (ParserRoundTrip.ParseUndoesPrint), without a condition of its own.
- ParserComments.SecondStatementSeenIff: covers statements on one line that open no block comment; with other marks the stripped text decides (ParserComments.SecondStatementRefused).
