/** The read-only classifier and its comment stripper (engine/internal/domain/policy.go). */
module QueryPolicy {
  import opened Text
  import Scanner
  import opened Parser
  import opened CommentStripper
  import opened NoiseStripper

  // ------------------------------------------------------------------ comments

  /**
   The text from position i on without its comments: a line comment becomes its newline, a block
   comment a blank, and an unclosed one swallows the rest.
   */
  function StripFrom(s: string, i: nat): string
    decreases |s| - i
  {
    if i >= |s| then ""
    else if TokenAt(s, i, '-', '-') then
      var k := LineEnd(s, i);
      if k < |s| then "\n" + StripFrom(s, k + 1) else ""
    else if TokenAt(s, i, '/', '*') then
      " " + StripFrom(s, BlockEnd(s, i + 2) + 2)
    else [s[i]] + StripFrom(s, i + 1)
  }

  function WithoutComments(s: string): string {
    StripFrom(s, 0)
  }

  /** b is what the loop has written when it stands at i. */
  ghost predicate Written(s: string, i: nat, b: string) {
    b + StripFrom(s, i) == WithoutComments(s)
  }

  lemma LineStep(s: string, i: nat, k: nat, b: string)
    requires TokenAt(s, i, '-', '-') && k == LineEnd(s, i) && Written(s, i, b)
    ensures k < |s| ==> Written(s, k + 1, b + "\n")
    ensures k == |s| ==> Written(s, k + 1, b)
  {
    if k < |s| { Assoc(b, "\n", StripFrom(s, k + 1)); }
  }

  lemma BlockStep(s: string, i: nat, k: nat, b: string)
    requires TokenAt(s, i, '/', '*') && i + 2 <= k && Written(s, i, b)
    requires BlockEnd(s, i + 2) == if k + 1 < |s| then k else |s|
    ensures Written(s, k + 2, b + " ")
  {
    var rest := StripFrom(s, k + 2);
    assert StripFrom(s, BlockEnd(s, i + 2) + 2) == rest;
    Assoc(b, " ", rest);
  }

  lemma PlainStep(s: string, i: nat, b: string)
    requires i < |s| && !TokenAt(s, i, '-', '-') && !TokenAt(s, i, '/', '*') && Written(s, i, b)
    ensures Written(s, i + 1, b + [s[i]])
  {
    Assoc(b, [s[i]], StripFrom(s, i + 1));
  }

  /** The line comment branch of the loop: skip to the newline, and write it if there is one. */
  method SkipLine(s: string, from: nat, before: string) returns (i: nat, b: string)
    requires TokenAt(s, from, '-', '-') && Written(s, from, before)
    ensures i == LineEnd(s, from) && b == if i < |s| then before + "\n" else before
    ensures Written(s, i + 1, b)
  {
    i, b := from, before;
    while i < |s| && s[i] != '\n'
      invariant from <= i <= |s| && LineEnd(s, from) == LineEnd(s, i)
    {
      i := i + 1;
    }
    LineStep(s, from, i, before);
    if i < |s| { b := b + "\n"; }
  }

  /** The block comment branch of the loop: skip to its last byte, past the text if it is not closed, and write a blank. */
  method SkipBlock(s: string, from: nat, before: string) returns (i: nat, b: string)
    requires TokenAt(s, from, '/', '*') && Written(s, from, before)
    ensures b == before + " "
    ensures if BlockEnd(s, from + 2) < |s| then i == BlockEnd(s, from + 2) + 1 else |s| <= i <= |s| + 1
    ensures Written(s, i + 1, b)
  {
    i := from + 2;
    while i + 1 < |s| && !(s[i] == '*' && s[i + 1] == '/')
      invariant from + 2 <= i <= |s| && BlockEnd(s, from + 2) == BlockEnd(s, i)
      decreases |s| - i
    {
      i := i + 1;
    }
    BlockStep(s, from, i, before);
    i := i + 1;
    b := before + " ";
  }

  /** stripSQLComments. */
  method StripSQLComments(s: string) returns (b: string)
    ensures b == WithoutComments(s)
  {
    b := "";
    var i: nat := 0;
    while i < |s|
      invariant Written(s, i, b)
      decreases |s| - i
    {
      if s[i] == '-' && i + 1 < |s| && s[i + 1] == '-' {
        i, b := SkipLine(s, i, b);
      } else if s[i] == '/' && i + 1 < |s| && s[i + 1] == '*' {
        i, b := SkipBlock(s, i, b);
      } else {
        PlainStep(s, i, b);
        b := b + [s[i]];
      }
      i := i + 1;
    }
  }

  // ------------------------------------------------- what stripping comments achieves

  /** Where the loop goes on after the byte or comment at i. */
  function AfterStep(s: string, i: nat): (r: nat)
    requires i < |s|
    ensures r > i
  {
    if TokenAt(s, i, '-', '-') then LineEnd(s, i) + 1
    else if TokenAt(s, i, '/', '*') then BlockEnd(s, i + 2) + 2
    else i + 1
  }

  /** What is written for the byte or comment at i. */
  function Emitted(s: string, i: nat): string
    requires i < |s|
  {
    if TokenAt(s, i, '-', '-') then (if LineEnd(s, i) < |s| then "\n" else "")
    else if TokenAt(s, i, '/', '*') then " "
    else [s[i]]
  }

  /** The same text, one emission after the other. */
  function EmittedFrom(s: string, i: nat): string
    decreases |s| - i
  {
    if i >= |s| then "" else Emitted(s, i) + EmittedFrom(s, AfterStep(s, i))
  }

  lemma {:induction false} EmittedIsStripped(s: string, i: nat)
    ensures EmittedFrom(s, i) == StripFrom(s, i)
    decreases |s| - i
  {
    if i < |s| {
      EmittedIsStripped(s, AfterStep(s, i));
      assert AfterStep(s, i) >= |s| ==> StripFrom(s, AfterStep(s, i)) == "";
    }
  }

  /** One byte is written for the byte or comment at i, or none for a line comment that ends the text. */
  lemma StripStep(s: string, i: nat) returns (c: char)
    requires i < |s| && StripFrom(s, i) != ""
    ensures StripFrom(s, i) == [c] + StripFrom(s, AfterStep(s, i))
    ensures c == ' ' || c == '\n' || (c == s[i] && !CommentOpensAt(s, i))
  {
    if TokenAt(s, i, '-', '-') {
      c := '\n';
    } else if TokenAt(s, i, '/', '*') {
      c := ' ';
    } else {
      c := s[i];
    }
  }

  /** Every output byte is a separator or is followed by what followed it in the input. */
  lemma {:induction false} StripLeavesNoComment(s: string, i: nat)
    ensures CommentFree(StripFrom(s, i))
    ensures StripFrom(s, i) != "" ==>
      i < |s| && var c := StripFrom(s, i)[0]; c == ' ' || c == '\n' || (c == s[i] && !CommentOpensAt(s, i))
    decreases |s| - i
  {
    if i < |s| && StripFrom(s, i) != "" {
      var r, t := StripFrom(s, i), StripFrom(s, AfterStep(s, i));
      StripLeavesNoComment(s, AfterStep(s, i));
      var c := StripStep(s, i);
      forall k: nat | k < |r| ensures !CommentOpensAt(r, k) {
        if k > 0 {
          assert !CommentOpensAt(t, k - 1) && r[1..] == t;
        }
      }
    }
  }

  lemma {:induction false} StripKeepsCommentFree(s: string, i: nat)
    requires CommentFree(s) && i <= |s|
    ensures StripFrom(s, i) == s[i..]
    decreases |s| - i
  {
    if i < |s| {
      assert !CommentOpensAt(s, i);
      StripKeepsCommentFree(s, i + 1);
    }
  }

  /** stripSQLComments is idempotent, and changes nothing exactly on text without comments. */
  lemma StripCommentsIsIdempotent(s: string)
    ensures WithoutComments(WithoutComments(s)) == WithoutComments(s)
    ensures WithoutComments(s) == s <==> CommentFree(s)
  {
    StripLeavesNoComment(s, 0);
    StripKeepsCommentFree(WithoutComments(s), 0);
    if CommentFree(s) { StripKeepsCommentFree(s, 0); }
  }

  // ----------------------------------------------------- agreement of the two strippers

  function NonBlank(s: string): string {
    if s == "" then "" else (if IsSpace(s[0]) then "" else [s[0]]) + NonBlank(s[1..])
  }

  lemma {:induction false} SkipBlanks(s: string, a: nat, b: nat)
    requires a <= b <= |s| && forall j :: a <= j < b ==> IsSpace(s[j])
    ensures NonBlank(s[a..]) == NonBlank(s[b..])
    decreases b - a
  {
    if a < b {
      SkipBlanks(s, a + 1, b);
      assert s[a..][1..] == s[a + 1..];
    }
  }

  lemma {:induction false} LineCommentMode(s: string, i: nat, j: nat)
    requires TokenAt(s, i, '-', '-') && ModeAt(s, i) == Code
    requires i + 2 <= j <= LineEnd(s, i)
    ensures ModeAt(s, j) == LineComment
  {
    if j == i + 2 {
      assert ModeAt(s, i + 1) == Second(LineComment);
    } else {
      LineCommentMode(s, i, j - 1);
      LineGoesOn(s, i);
    }
  }

  lemma {:induction false} BlockCommentMode(s: string, i: nat, j: nat)
    requires TokenAt(s, i, '/', '*') && ModeAt(s, i) == Code
    requires i + 2 <= j <= BlockEnd(s, i + 2)
    ensures ModeAt(s, j) == BlockComment
  {
    if j == i + 2 {
      assert ModeAt(s, i + 1) == Second(BlockComment);
    } else {
      BlockCommentMode(s, i, j - 1);
      BlockGoesOn(s, i + 2);
      assert !BlockClosesAt(s, j - 1);
    }
  }

  /** A line comment is blanked up to and including its newline. */
  lemma LineCommentBlanked(s: string, i: nat) returns (e: nat)
    requires i < |s| && TokenAt(s, i, '-', '-') && ModeAt(s, i) == Code
    ensures i < e <= |s| && e == if LineEnd(s, i) < |s| then LineEnd(s, i) + 1 else |s|
    ensures forall j :: i <= j < e ==> IsSpace(Cleaned(s)[j])
    ensures e < |s| || s[|s| - 1] == '\n' ==> ModeAt(s, e) == Code
  {
    var k := LineEnd(s, i);
    LineGoesOn(s, i);
    assert k >= i + 2 by { assert s[i] != '\n' && s[i + 1] != '\n'; }
    forall j | i <= j < k ensures !Kept(s, j) {
      if j >= i + 2 { LineCommentMode(s, i, j); }
      if j == i + 1 { assert ModeAt(s, j) == Second(LineComment); }
    }
    LineCommentMode(s, i, k);
    e := if k < |s| then k + 1 else |s|;
  }

  lemma BlockCommentBlanked(s: string, i: nat) returns (e: nat)
    requires i < |s| && TokenAt(s, i, '/', '*') && ModeAt(s, i) == Code
    ensures i < e <= |s| && e == if BlockEnd(s, i + 2) < |s| then BlockEnd(s, i + 2) + 2 else |s|
    ensures forall j :: i <= j < e ==> IsSpace(Cleaned(s)[j])
    ensures BlockEnd(s, i + 2) < |s| ==> ModeAt(s, e) == Code
  {
    var k := BlockEnd(s, i + 2);
    e := if k < |s| then k + 2 else |s|;
    BlockCommentMode(s, i, k);
    BlockGoesOn(s, i + 2);
    forall j | i <= j < e ensures !Kept(s, j) {
      if j == i + 1 { assert ModeAt(s, j) == Second(BlockComment); }
      if i + 2 <= j <= k { BlockCommentMode(s, i, j); }
      if j == k + 1 { assert ModeAt(s, j) == Second(Code); }
    }
    if k < |s| { assert ModeAt(s, k + 1) == Second(Code); }
  }

  /** From here on both strippers leave the same visible characters. */
  ghost predicate SameRest(s: string, i: nat)
    requires i <= |s|
  {
    NonBlank(Cleaned(s)[i..]) == NonBlank(StripFrom(s, i))
  }

  lemma NonBlankCons(c: char, s: string)
    ensures NonBlank([c] + s) == (if IsSpace(c) then "" else [c]) + NonBlank(s)
  {
    assert ([c] + s)[1..] == s;
  }

  lemma HeadAndTail(s: string, i: nat)
    requires i < |s|
    ensures s[i..] == [s[i]] + s[i + 1..]
  {
  }

  lemma LineIsBlank(s: string, i: nat, e: nat)
    requires i < |s| && TokenAt(s, i, '-', '-')
    requires e == if LineEnd(s, i) < |s| then LineEnd(s, i) + 1 else |s|
    ensures NonBlank(StripFrom(s, i)) == NonBlank(StripFrom(s, e))
  {
    NonBlankCons('\n', StripFrom(s, e));
  }

  lemma SameAtLineComment(s: string, i: nat) returns (e: nat)
    requires i < |s| && TokenAt(s, i, '-', '-') && ModeAt(s, i) == Code
    ensures i < e <= |s| && (e < |s| ==> ModeAt(s, e) == Code)
    ensures SameRest(s, e) ==> SameRest(s, i)
  {
    e := LineCommentBlanked(s, i);
    SkipBlanks(Cleaned(s), i, e);
    LineIsBlank(s, i, e);
  }

  lemma BlockIsBlank(s: string, i: nat, e: nat)
    requires i < |s| && TokenAt(s, i, '/', '*')
    requires e == if BlockEnd(s, i + 2) < |s| then BlockEnd(s, i + 2) + 2 else |s|
    ensures NonBlank(StripFrom(s, i)) == NonBlank(StripFrom(s, e))
  {
    NonBlankCons(' ', StripFrom(s, e));
  }

  lemma SameAtBlockComment(s: string, i: nat) returns (e: nat)
    requires i < |s| && TokenAt(s, i, '/', '*') && ModeAt(s, i) == Code
    ensures i < e <= |s| && (e < |s| ==> ModeAt(s, e) == Code)
    ensures SameRest(s, e) ==> SameRest(s, i)
  {
    e := BlockCommentBlanked(s, i);
    SkipBlanks(Cleaned(s), i, e);
    BlockIsBlank(s, i, e);
  }

  lemma SameAtCode(s: string, i: nat)
    requires i < |s| && Next(Code, s, i) == Code && ModeAt(s, i) == Code
    requires SameRest(s, i + 1)
    ensures SameRest(s, i)
  {
    HeadAndTail(Cleaned(s), i);
    assert Cleaned(s)[i] == s[i];
    NonBlankCons(s[i], Cleaned(s)[i + 1..]);
    assert StripFrom(s, i) == [s[i]] + StripFrom(s, i + 1);
    NonBlankCons(s[i], StripFrom(s, i + 1));
  }

  lemma {:induction false} SameFrom(s: string, i: nat)
    requires '\'' !in s && i <= |s| && (i < |s| ==> ModeAt(s, i) == Code)
    ensures SameRest(s, i)
    decreases |s| - i
  {
    if i < |s| {
      if TokenAt(s, i, '-', '-') {
        var e := SameAtLineComment(s, i);
        SameFrom(s, e);
      } else if TokenAt(s, i, '/', '*') {
        var e := SameAtBlockComment(s, i);
        SameFrom(s, e);
      } else {
        assert s[i] in s;
        SameFrom(s, i + 1);
        SameAtCode(s, i);
      }
    }
  }

  /** On text without quotes both strippers leave the same visible characters in the same order. */
  lemma StrippersAgree(s: string)
    requires '\'' !in s
    ensures NonBlank(Cleaned(s)) == NonBlank(WithoutComments(s))
  {
    SameFrom(s, 0);
    assert Cleaned(s)[0..] == Cleaned(s);
  }

  /** With a quote they need not agree: the classifier's stripper looks for comments inside literals. */
  lemma StrippersDisagreeOnLiterals()
    ensures NonBlank(Cleaned("'--'")) != NonBlank(WithoutComments("'--'"))
  {
    var s := "'--'";
    var r := Cleaned(s);
    assert ModeAt(s, 1) == Literal && ModeAt(s, 2) == Literal && ModeAt(s, 3) == Literal;
    assert forall j :: 0 <= j < 4 ==> !Kept(s, j) && IsSpace(r[j]);
    SkipBlanks(r, 0, 4);
    assert r[0..] == r && NonBlank(r[4..]) == "";
    assert NonBlank(WithoutComments(s)) != "" by { assert WithoutComments(s)[0] == '\''; }
  }

  // -------------------------------------------------------------------- classification

  datatype QueryClass = QueryClass(readOnly: bool, destructive: bool, verb: string)

  predicate StatementEnd(c: char) {
    c == ';' || c == ' ' || c == '\t' || c == '\r' || c == '\n'
  }

  function TrimEnd(s: string): string {
    if s != "" && StatementEnd(s[|s| - 1]) then TrimEnd(s[..|s| - 1]) else s
  }

  predicate HasMultipleStatements(s: string) {
    ';' in TrimEnd(s)
  }

  /** First byte class TrimLeft drops in firstWord. */
  predicate LeadByte(c: char) {
    c == '(' || c == ' ' || c == '\t' || c == '\r' || c == '\n'
  }

  predicate VerbByte(c: char) {
    IsWordByte(c) || c == '$'
  }

  function FirstWord(s: string): string {
    var start := Run(LeadByte, s, 0);
    s[start..Run(VerbByte, s, start)]
  }

  predicate ContainsWriteVerb(upper: string) {
    exists v | v in ["INSERT", "UPDATE", "DELETE", "MERGE", "DROP", "ALTER", "TRUNCATE", "CREATE", "GRANT", "REVOKE"] ::
      Occurs(v, upper)
  }

  /** The verdict on text without comments and outer blanks. */
  function Verdict(trimmed: string): QueryClass {
    if trimmed == "" then QueryClass(true, false, "")
    else if HasMultipleStatements(trimmed) then QueryClass(false, true, "MULTI")
    else
      var upper := ToUpper(trimmed);
      var verb := FirstWord(upper);
      if verb in ["SELECT", "SHOW", "EXPLAIN", "DESCRIBE", "DESC", "PRAGMA"] then QueryClass(true, false, verb)
      else if verb == "WITH" then QueryClass(!ContainsWriteVerb(upper), false, verb)
      else if verb in ["DROP", "TRUNCATE", "ALTER", "GRANT", "REVOKE", "RENAME"] then QueryClass(false, true, verb)
      else if verb in ["DELETE", "UPDATE"] then
        var hasWhere := Occurs(" WHERE ", upper) || (|upper| >= 6 && upper[|upper| - 6..] == " WHERE");
        QueryClass(false, !hasWhere, verb)
      else if verb == "CREATE" then QueryClass(false, "CREATE USER" <= upper || "CREATE ROLE" <= upper, verb)
      else QueryClass(false, false, verb)
  }

  function ClassifyQuery(query: string): QueryClass {
    Verdict(TrimSpace(WithoutComments(query)))
  }

  /** Comments never change the verdict. */
  lemma VerdictIgnoresComments(query: string)
    ensures ClassifyQuery(WithoutComments(query)) == ClassifyQuery(query)
  {
    StripCommentsIsIdempotent(query);
  }

  /** A semicolon with something other than semicolons and blanks behind it. */
  predicate SecondStatementAt(s: string, i: nat) {
    i < |s| && s[i] == ';' && exists j | i < j < |s| :: !StatementEnd(s[j])
  }

  lemma MultipleMeansSecond(s: string)
    ensures HasMultipleStatements(s) <==> exists i: nat | i < |s| :: SecondStatementAt(s, i)
  {
    var t := TrimEnd(s);
    TrimEndSpec(s);
    if ';' in t {
      var i :| 0 <= i < |t| && t[i] == ';';
      assert s[i] == ';' && !StatementEnd(s[|t| - 1]);
      assert SecondStatementAt(s, i);
    }
    forall i: nat | i < |s| && SecondStatementAt(s, i) ensures ';' in t {
      var j :| i < j < |s| && !StatementEnd(s[j]);
      assert j < |t|;
      assert t[i] == ';';
    }
  }

  lemma {:induction false} TrimEndSpec(s: string)
    ensures TrimEnd(s) <= s
    ensures forall j :: |TrimEnd(s)| <= j < |s| ==> StatementEnd(s[j])
    ensures TrimEnd(s) != "" ==> !StatementEnd(TrimEnd(s)[|TrimEnd(s)| - 1])
  {
    if s != "" && StatementEnd(s[|s| - 1]) { TrimEndSpec(s[..|s| - 1]); }
  }

  /** Nothing but semicolons and blanks follows a semicolon. */
  ghost predicate OnlyEmptyStatementsFollow(s: string) {
    forall i, j :: 0 <= i < j < |s| && s[i] == ';' ==> s[j] == ';' || IsSpace(s[j])
  }

  lemma OneStatementOnly(t: string)
    requires !HasMultipleStatements(t)
    ensures OnlyEmptyStatementsFollow(t)
  {
    MultipleMeansSecond(t);
    forall i, j | 0 <= i < j < |t| && t[i] == ';' ensures t[j] == ';' || IsSpace(t[j]) {
      assert !SecondStatementAt(t, i);
    }
  }

  lemma BlanksAroundKeepIt(before: string, t: string, after: string)
    requires Blank(before) && Blank(after) && OnlyEmptyStatementsFollow(t)
    ensures OnlyEmptyStatementsFollow(before + t + after)
  {
    var s, n, m := before + t + after, |before|, |t|;
    forall i, j | 0 <= i < j < |s| && s[i] == ';' ensures s[j] == ';' || IsSpace(s[j]) {
      if j < n + m {
        assert n <= i && s[i] == t[i - n] && s[j] == t[j - n];
      } else {
        assert s[j] == after[j - n - m];
      }
    }
  }

  lemma ReadOnlyIsNotMultiple(query: string)
    requires ClassifyQuery(query).readOnly
    ensures !HasMultipleStatements(TrimSpace(WithoutComments(query)))
  {
  }

  /** What the classifier guarantees of the text it looks at, which is the query less what it takes for comments. */
  lemma StrippedReadOnlyIsOne(query: string)
    requires ClassifyQuery(query).readOnly
    ensures OnlyEmptyStatementsFollow(WithoutComments(query))
  {
    var s := WithoutComments(query);
    var lo, hi := TrimBounds(s);
    ReadOnlyIsNotMultiple(query);
    OneStatementOnly(s[lo..hi]);
    BlanksAroundKeepIt(s[..lo], s[lo..hi], s[hi..]);
    CutTwice(s, lo, hi);
  }

  /** The other direction: a visible second statement always makes the script MULTI and destructive. */
  lemma SecondStatementIsMulti(query: string, i: nat)
    requires SecondStatementAt(TrimSpace(WithoutComments(query)), i)
    ensures ClassifyQuery(query) == QueryClass(false, true, "MULTI")
  {
    MultipleMeansSecond(TrimSpace(WithoutComments(query)));
  }

  // ------------------------------------------------------------ what the query itself holds

  /** No comment mark stands inside a literal. */
  predicate NoMarkInLiteral(s: string) {
    forall i: nat | i < |s| :: ModeAt(s, i) == Literal ==> !CommentOpensAt(s, i)
  }

  /** Whatever is visible in seen is in text too, and one statement in text is one statement in seen. */
  ghost predicate Shows(text: string, seen: string) {
    && (forall c :: c in seen && !IsSpace(c) ==> c in text)
    && (OnlyEmptyStatementsFollow(text) ==> OnlyEmptyStatementsFollow(seen))
  }

  lemma FollowsTail(d: char, text: string)
    requires OnlyEmptyStatementsFollow([d] + text)
    ensures OnlyEmptyStatementsFollow(text)
    ensures d == ';' ==> forall c :: c in text ==> c == ';' || IsSpace(c)
  {
    var t := [d] + text;
    assert forall j :: 0 <= j < |text| ==> text[j] == t[j + 1];
    forall c | d == ';' && c in text ensures c == ';' || IsSpace(c) {
      var j :| 0 <= j < |text| && text[j] == c;
      assert t[0] == ';' && t[j + 1] == c;
    }
  }

  /** The same byte, or a blank in its place. */
  lemma ShowsStep(d: char, text: string, c: char, seen: string)
    requires Shows(text, seen) && (c == d || IsSpace(c))
    ensures Shows([d] + text, [c] + seen)
  {
    if OnlyEmptyStatementsFollow([d] + text) {
      FollowsTail(d, text);
      var t := [c] + seen;
      forall i, j | 0 <= i < j < |t| && t[i] == ';' ensures t[j] == ';' || IsSpace(t[j]) {
        assert t[j] == seen[j - 1] && seen[j - 1] in seen;
        if i > 0 { assert seen[i - 1] == ';'; }
      }
    }
  }

  /** Blanks in front of what is seen, anything in front of the text. */
  lemma {:induction false} ShowsBlanks(front: string, text: string, blanks: string, seen: string)
    requires Shows(text, seen) && Blank(blanks) && |front| <= 1
    ensures Shows(front + text, blanks + seen)
  {
    if blanks == "" {
      assert blanks + seen == seen;
      if front != "" && OnlyEmptyStatementsFollow(front + text) {
        assert front + text == [front[0]] + text;
        FollowsTail(front[0], text);
      }
      assert front == "" ==> front + text == text;
    } else {
      var rest := blanks[1..];
      assert Blank(rest) by { assert forall j :: 0 <= j < |rest| ==> rest[j] == blanks[j + 1]; }
      ShowsBlanks(front, text, rest, seen);
      assert blanks + seen == [blanks[0]] + (rest + seen);
      assert IsSpace(blanks[0]);
      ShowsBlank(front + text, blanks[0], rest + seen);
    }
  }

  lemma ShowsBlank(text: string, c: char, seen: string)
    requires Shows(text, seen) && IsSpace(c)
    ensures Shows(text, [c] + seen)
  {
    var t := [c] + seen;
    if OnlyEmptyStatementsFollow(text) {
      forall i, j | 0 <= i < j < |t| && t[i] == ';' ensures t[j] == ';' || IsSpace(t[j]) {
        assert t[i] == seen[i - 1] && t[j] == seen[j - 1];
      }
    }
  }

  /** The stripper and the automaton stand at the same byte, outside comments. */
  ghost predicate InStep(s: string, i: nat)
    requires i <= |s|
  {
    i < |s| ==> ModeAt(s, i) in {Code, Literal} || (ModeAt(s, i) == Second(Literal) && s[i] == '\'')
  }

  ghost predicate ShowsFrom(s: string, i: nat)
    requires i <= |s|
  {
    Shows(StripFrom(s, i), Cleaned(s)[i..])
  }

  lemma ShowsAtComment(s: string, i: nat) returns (e: nat)
    requires i < |s| && CommentOpensAt(s, i) && ModeAt(s, i) == Code
    ensures i < e <= |s| && InStep(s, e)
    ensures ShowsFrom(s, e) ==> ShowsFrom(s, i)
  {
    e := CommentBlanked(s, i);
    var r := Cleaned(s);
    assert r[i..] == r[i..e] + r[e..] && Blank(r[i..e]);
    var front := CommentLeaves(s, i, e);
    if ShowsFrom(s, e) { ShowsBlanks(front, StripFrom(s, e), r[i..e], r[e..]); }
  }

  /** A comment is blanked as a whole. */
  lemma CommentBlanked(s: string, i: nat) returns (e: nat)
    requires i < |s| && CommentOpensAt(s, i) && ModeAt(s, i) == Code
    ensures i < e <= |s| && (e < |s| ==> ModeAt(s, e) == Code) && CommentEnd(s, i) == e
    ensures forall j :: i <= j < e ==> IsSpace(Cleaned(s)[j])
  {
    if TokenAt(s, i, '-', '-') { e := LineCommentBlanked(s, i); } else { e := BlockCommentBlanked(s, i); }
  }

  /** Where the text goes on behind the comment at i. */
  function CommentEnd(s: string, i: nat): nat
    requires CommentOpensAt(s, i)
  {
    if TokenAt(s, i, '-', '-') then (if LineEnd(s, i) < |s| then LineEnd(s, i) + 1 else |s|)
    else if BlockEnd(s, i + 2) < |s| then BlockEnd(s, i + 2) + 2 else |s|
  }

  lemma CommentLeaves(s: string, i: nat, e: nat) returns (front: string)
    requires i < |s| && CommentOpensAt(s, i) && e == CommentEnd(s, i) <= |s|
    ensures |front| <= 1 && StripFrom(s, i) == front + StripFrom(s, e)
  {
    front := if TokenAt(s, i, '-', '-') then (if LineEnd(s, i) < |s| then "\n" else "") else " ";
  }

  lemma ShowsAtByte(s: string, i: nat)
    requires i < |s| && !CommentOpensAt(s, i) && ShowsFrom(s, i + 1)
    ensures ShowsFrom(s, i)
  {
    HeadAndTail(Cleaned(s), i);
    ShowsStep(s[i], StripFrom(s, i + 1), Cleaned(s)[i], Cleaned(s)[i + 1..]);
  }

  lemma {:induction false} CleanedIsShown(s: string, i: nat)
    requires NoMarkInLiteral(s) && i <= |s| && InStep(s, i)
    ensures ShowsFrom(s, i)
    decreases |s| - i
  {
    if i < |s| {
      if CommentOpensAt(s, i) {
        var e := ShowsAtComment(s, i);
        CleanedIsShown(s, e);
      } else {
        CleanedIsShown(s, i + 1);
        ShowsAtByte(s, i);
      }
    }
  }

  /**
   A query without comment marks in its literals that is answered as read-only holds one statement: outside its
   literals and comments nothing but semicolons and blanks follows a semicolon.
   */
  lemma ReadOnlyIsOneStatement(query: string)
    requires NoMarkInLiteral(query) && ClassifyQuery(query).readOnly
    ensures OnlyEmptyStatementsFollow(Cleaned(query))
  {
    StrippedReadOnlyIsOne(query);
    CleanedIsShown(query, 0);
    assert Cleaned(query)[0..] == Cleaned(query);
  }

  // ---- text behind a read-only query

  /** The stripper is inside a comment when it reaches the end of the text. */
  predicate EndsOpen(s: string, i: nat)
    decreases |s| - i
  {
    i < |s| && (AfterStep(s, i) > |s| || EndsOpen(s, AfterStep(s, i)))
  }

  /** Nothing in the text ends a comment that is open in front of it. */
  predicate EndsNoComment(b: string) {
    '\n' !in b && (b == "" || b[0] != '/') && forall j: nat | j < |b| :: !BlockClosesAt(b, j)
  }

  lemma BlockStaysOpen(a: string, b: string, i: nat)
    requires i <= |a| && BlockEnd(a, i) == |a| && EndsNoComment(b)
    ensures BlockEnd(a + b, i) == |a + b|
  {
    var s := a + b;
    BlockGoesOn(a, i);
    forall j: nat | i <= j ensures !BlockClosesAt(s, j) {
      assert j < |a| ==> !BlockClosesAt(a, j);
      assert j >= |a| ==> !BlockClosesAt(b, j - |a|);
    }
  }

  /** A text that does not complete a comment mark at the end of another. */
  predicate StartsApart(b: string) {
    b == "" || (b[0] != '-' && b[0] != '*')
  }

  /** A step that stays inside the first text is the same in front of any other. */
  lemma StepBefore(a: string, b: string, i: nat)
    requires i < |a| && AfterStep(a, i) <= |a| && StartsApart(b)
    ensures AfterStep(a + b, i) == AfterStep(a, i) && Emitted(a + b, i) == Emitted(a, i)
  {
    if TokenAt(a, i, '-', '-') {
      LineEndOfJoin(a, b, i);
    } else if TokenAt(a, i, '/', '*') {
      BlockEndOfJoin(a, b, i + 2);
    }
  }

  /** A step into an open comment goes on behind the other text, if that does not end it. */
  lemma StepBeyond(a: string, b: string, i: nat)
    requires i < |a| && AfterStep(a, i) > |a| && EndsNoComment(b)
    ensures AfterStep(a + b, i) > |a + b| && Emitted(a + b, i) == Emitted(a, i)
  {
    if TokenAt(a, i, '-', '-') {
      LineEndOfJoin(a, b, i);
    } else {
      BlockStaysOpen(a, b, i + 2);
    }
  }

  lemma StepBehind(a: string, b: string, i: nat)
    requires i < |b|
    ensures AfterStep(a + b, |a| + i) == |a| + AfterStep(b, i) && Emitted(a + b, |a| + i) == Emitted(b, i)
  {
    var s, k := a + b, |a| + i;
    assert TokenAt(s, k, '-', '-') == TokenAt(b, i, '-', '-') && TokenAt(s, k, '/', '*') == TokenAt(b, i, '/', '*');
    LineEndBehind(a, b, i);
    if TokenAt(b, i, '/', '*') { BlockEndBehind(a, b, i + 2); }
  }

  lemma {:induction false} LineEndBehind(a: string, b: string, i: nat)
    requires i <= |b|
    ensures LineEnd(a + b, |a| + i) == |a| + LineEnd(b, i)
    decreases |b| - i
  {
    if i < |b| && b[i] != '\n' { LineEndBehind(a, b, i + 1); }
  }

  lemma {:induction false} BlockEndBehind(a: string, b: string, i: nat)
    requires i <= |b|
    ensures BlockEnd(a + b, |a| + i) == |a| + BlockEnd(b, i)
    decreases |b| - i
  {
    assert BlockClosesAt(a + b, |a| + i) <==> BlockClosesAt(b, i);
    if i + 1 < |b| && !BlockClosesAt(b, i) { BlockEndBehind(a, b, i + 1); }
  }

  lemma {:induction false} SwallowedBehind(a: string, b: string, i: nat)
    requires EndsOpen(a, i) && EndsNoComment(b) && StartsApart(b)
    ensures StripFrom(a + b, i) == StripFrom(a, i)
    decreases |a| - i
  {
    var k := AfterStep(a, i);
    if k > |a| {
      StepBeyond(a, b, i);
    } else {
      StepBefore(a, b, i);
      SwallowedBehind(a, b, k);
    }
  }

  lemma {:induction false} SeenBehind(a: string, b: string, i: nat)
    requires i <= |a| && !EndsOpen(a, i) && StartsApart(b)
    ensures StripFrom(a + b, i) == StripFrom(a, i) + StripFrom(a + b, |a|)
    decreases |a| - i
  {
    if i < |a| {
      var k := AfterStep(a, i);
      StepBefore(a, b, i);
      SeenBehind(a, b, k);
      Assoc(Emitted(a, i), StripFrom(a, k), StripFrom(a + b, |a|));
    }
  }

  lemma {:induction false} EmittedBehind(a: string, b: string, i: nat)
    ensures EmittedFrom(a + b, |a| + i) == EmittedFrom(b, i)
    decreases |b| - i
  {
    if i < |b| {
      StepBehind(a, b, i);
      EmittedBehind(a, b, AfterStep(b, i));
      SameEmission(a + b, |a| + i, b, i);
    }
  }

  lemma SameEmission(s: string, k: nat, b: string, i: nat)
    requires k < |s| && i < |b| && Emitted(s, k) == Emitted(b, i)
    requires EmittedFrom(s, AfterStep(s, k)) == EmittedFrom(b, AfterStep(b, i))
    ensures EmittedFrom(s, k) == EmittedFrom(b, i)
  {
  }

  lemma StrippedBehind(a: string, b: string, i: nat)
    ensures StripFrom(a + b, |a| + i) == StripFrom(b, i)
  {
    EmittedBehind(a, b, i);
    EmittedIsStripped(a + b, |a| + i);
    EmittedIsStripped(b, i);
  }

  /** A semicolon with something visible behind it is not read-only. */
  lemma VisibleBehindSemicolon(query: string, x: string, y: string, c: char)
    requires WithoutComments(query) == x + ";" + y && c in y && c != ';' && !IsSpace(c)
    ensures !ClassifyQuery(query).readOnly
  {
    var s := x + ";" + y;
    var j :| 0 <= j < |y| && y[j] == c;
    assert s[|x|] == ';' && s[|x| + 1 + j] == c;
    if ClassifyQuery(query).readOnly { StrippedReadOnlyIsOne(query); }
  }

  lemma ClosedInFront(a: string, more: string)
    requires !EndsOpen(a, 0)
    ensures WithoutComments(a + ";" + more) == WithoutComments(a) + ";" + WithoutComments(more)
  {
    var b := ";" + more;
    Assoc(a, ";", more);
    SeenBehind(a, b, 0);
    StrippedBehind(a, b, 0);
    StrippedBehind(";", more, 0);
    assert StripFrom(b, 0) == ";" + WithoutComments(more);
    Assoc(WithoutComments(a), ";", WithoutComments(more));
  }

  lemma HiddenBehindComment(a: string, more: string)
    requires EndsOpen(a, 0) && EndsNoComment(";" + more)
    ensures ClassifyQuery(a + ";" + more) == ClassifyQuery(a)
  {
    Assoc(a, ";", more);
    SwallowedBehind(a, ";" + more, 0);
  }

  /**
   When a statement behind a read-only one goes unnoticed: text that ends no comment and shows something besides
   semicolons and blanks leaves the answer read-only exactly if the classifier's stripper is inside a comment when
   it gets there. Where that comment mark stands in a literal, the database runs the statement.
   */
  lemma AppendedStatementIff(a: string, more: string, c: char)
    requires ClassifyQuery(a).readOnly && EndsNoComment(";" + more)
    requires c in WithoutComments(more) && c != ';' && !IsSpace(c)
    ensures ClassifyQuery(a + ";" + more).readOnly <==> EndsOpen(a, 0)
  {
    if EndsOpen(a, 0) {
      HiddenBehindComment(a, more);
    } else {
      ClosedInFront(a, more);
      VisibleBehindSemicolon(a + ";" + more, WithoutComments(a), WithoutComments(more), c);
    }
  }

  // ---- the failing input: a comment mark in a literal

  lemma {:induction false} PlainFront(s: string, i: nat, k: nat)
    requires i <= k <= |s| && forall j: nat | i <= j < k :: !CommentOpensAt(s, j)
    ensures StripFrom(s, i) == s[i..k] + StripFrom(s, k)
    ensures EndsOpen(s, k) ==> EndsOpen(s, i)
    decreases k - i
  {
    if i < k {
      PlainFront(s, i + 1, k);
      assert s[i..k] == [s[i]] + s[i + 1..k];
      Assoc([s[i]], s[i + 1..k], StripFrom(s, k));
      assert !CommentOpensAt(s, i);
    } else {
      assert s[i..k] == "" && "" + StripFrom(s, k) == StripFrom(s, k);
    }
  }

  lemma SelectIsReadOnly(front: string)
    requires "SELECT " <= front && Trimmed(front) && ';' !in front
    ensures Verdict(TrimSpace(front)).readOnly
  {
    TrimmedIsFixed(front);
    TrimEndSpec(front);
    var u := ToUpper(front);
    assert front[0] == 'S' && front[1] == 'E' && front[2] == 'L' && front[3] == 'E' && front[4] == 'C' && front[5] == 'T';
    assert front[6] == ' ';
    assert u[0..6] == "SELECT";
    RunIs(LeadByte, u, 0, 0);
    RunIs(VerbByte, u, 0, 6);
    assert FirstWord(u) == "SELECT";
  }

  /** The mark is the first one, and no line ends behind it. */
  lemma FirstMark(front: string, y: string)
    requires (forall j: nat | j < |front| :: !CommentOpensAt(front + "-", j)) && '\n' !in y
    ensures var (a, n) := (front + "--" + y, |front|);
      TokenAt(a, n, '-', '-') && a[0..n] == front && LineEnd(a, n) == |a| && forall j: nat | j < n :: !CommentOpensAt(a, j)
  {
    var a, n := front + "--" + y, |front|;
    assert a == (front + "-") + ("-" + y);
    forall j: nat | j < n ensures !CommentOpensAt(a, j) { assert !CommentOpensAt(front + "-", j); }
    forall j | n <= j < |a| ensures a[j] != '\n' {
      if j >= n + 2 { assert a[j] == y[j - n - 2]; }
    }
  }

  /** A one-line text that is plain up to a line comment mark is read up to there. */
  lemma CutAtMark(front: string, y: string)
    requires (forall j: nat | j < |front| :: !CommentOpensAt(front + "-", j)) && '\n' !in y
    ensures WithoutComments(front + "--" + y) == front && EndsOpen(front + "--" + y, 0)
  {
    var a, n := front + "--" + y, |front|;
    FirstMark(front, y);
    PlainFront(a, 0, n);
    assert front + "" == front;
  }

  /** SELECT 'x--z' */
  function DashSelect(x: string, z: string): string {
    ("SELECT '" + x) + "--" + (z + "'")
  }

  predicate DashOk(x: string, z: string) {
    && '\'' !in x && '\'' !in z && '\n' !in z && ';' !in x && Trimmed("'" + x)
    && forall j: nat | j < |x| :: !CommentOpensAt(x + "-", j)
  }

  lemma DashSelectIsReadOnly(x: string, z: string)
    requires DashOk(x, z)
    ensures ClassifyQuery(DashSelect(x, z)).readOnly && EndsOpen(DashSelect(x, z), 0)
  {
    var front := "SELECT '" + x;
    forall j: nat | j < |front| ensures !CommentOpensAt(front + "-", j) {
      if j >= 8 {
        assert !CommentOpensAt(x + "-", j - 8);
        assert (front + "-")[j] == (x + "-")[j - 8] && (front + "-")[j + 1] == (x + "-")[j - 7];
      }
    }
    CutAtMark(front, z + "'");
    assert front[..7] == "SELECT " && front[7..] == "'" + x;
    SelectIsReadOnly(front);
  }

  lemma {:induction false} LiteralMode(s: string, a: nat, b: nat)
    requires a <= b <= |s| && ModeAt(s, a) == Literal && forall j | a <= j < b :: s[j] != '\''
    ensures ModeAt(s, b) == Literal
    decreases b - a
  {
    if a < b { LiteralMode(s, a, b - 1); }
  }

  /** Where the literal of such a query stands, whatever follows it behind a semicolon. */
  lemma DashSelectLiteral(x: string, z: string, more: string)
    requires DashOk(x, z)
    ensures var (q, n) := (DashSelect(x, z) + ";" + more, |DashSelect(x, z)|);
      && q[n] == ';' && q[n + 1..] == more && ModeAt(q, n) == Code && Scanner.TopLevel(q, n)
  {
    var a := DashSelect(x, z);
    var q, n, body := a + ";" + more, |a|, x + "--" + z;
    assert a == "SELECT '" + body + "'";
    assert forall j :: 8 <= j < n - 1 ==> q[j] == body[j - 8] && body[j - 8] in body;
    assert forall j :: 0 <= j < 7 ==> q[j] == "SELECT "[j];
    assert q[7] == '\'' && q[n - 1] == '\'' && q[n] == ';';
    CodeRun(q, 0, 7);
    assert ModeAt(q, 8) == Literal;
    LiteralMode(q, 8, n - 1);
    Scanner.PlainRun(q, 0, 7);
    assert Scanner.InLiteral(q, 8) && Scanner.Depth(q, 8) == 0;
    Scanner.LiteralRun(q, 8, n - 1);
  }

  /**
   The naive test is not always the more conservative one: behind SELECT 'x--z' any statement on the same line goes
   unnoticed. The answer is read-only, although the analyzer's scanner sees a second statement, and, if the rest
   has no quotes and comments of its own, so does whoever leaves out literals and comments.
   */
  lemma DashHidesStatement(x: string, z: string, more: string, c: char)
    requires DashOk(x, z) && EndsNoComment(";" + more) && NoiseFree(more)
    requires c in more && c != ';' && !IsSpace(c)
    ensures var q := DashSelect(x, z) + ";" + more;
      ClassifyQuery(q).readOnly && Scanner.HasSecondStatement(q) && !OnlyEmptyStatementsFollow(Cleaned(q))
  {
    DashSelectIsReadOnly(x, z);
    HiddenBehindComment(DashSelect(x, z), more);
    DashSelectLiteral(x, z, more);
    ShownBehind(DashSelect(x, z) + ";" + more, |DashSelect(x, z)|, c);
  }

  /** A semicolon outside literals and comments, with visible text behind it that has neither. */
  lemma ShownBehind(q: string, n: nat, c: char)
    requires n < |q| && q[n] == ';' && ModeAt(q, n) == Code && Scanner.TopLevel(q, n)
    requires NoiseFree(q[n + 1..]) && c in q[n + 1..] && c != ';' && !IsSpace(c)
    ensures Scanner.HasSecondStatement(q) && !OnlyEmptyStatementsFollow(Cleaned(q))
  {
    var more := q[n + 1..];
    var j :| 0 <= j < |more| && more[j] == c;
    TrimEmpty(more);
    assert Scanner.ExtraStatementAt(q, n);
    NoiseFreeBehind(q, n);
    CodeRun(q, n, |q|);
    assert Cleaned(q)[n] == ';' && Cleaned(q)[n + 1 + j] == c;
  }

  lemma NoiseFreeBehind(q: string, n: nat)
    requires n < |q| && q[n] == ';' && NoiseFree(q[n + 1..])
    ensures forall k: nat | n <= k < |q| :: q[k] != '\'' && !CommentOpensAt(q, k)
  {
    var more := q[n + 1..];
    forall k: nat | n < k < |q| ensures q[k] != '\'' && !CommentOpensAt(q, k) {
      assert q[k] == more[k - n - 1] && more[k - n - 1] in more && !CommentOpensAt(more, k - n - 1);
    }
  }

  /** SELECT '--'; DROP TABLE x */
  lemma DropIsReadOnly()
    ensures var q := DashSelect("", "") + ";" + " DROP TABLE x";
      ClassifyQuery(q).readOnly && Scanner.HasSecondStatement(q) && !OnlyEmptyStatementsFollow(Cleaned(q))
  {
    assert " DROP TABLE x"[1] == 'D';
    DashHidesStatement("", "", " DROP TABLE x", 'D');
  }
}
