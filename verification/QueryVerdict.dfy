/**
 Which queries the classifier of engine/internal/domain/policy.go calls read-only and which destructive: the
 first word decides, whatever comments, blanks and parentheses stand in front of it, in any letter case.
 */
module QueryVerdict {
  import opened Text
  import Scanner
  import opened CommentStripper
  import opened Parser
  import opened QueryPolicy

  /** Blanks and open parentheses, which may stand in front of a statement. */
  predicate FrontByte(c: char) {
    c in [' ', '\t', '\r', '\n', '(']
  }

  /** What a first word is made of: letters, digits, underscores and dollar signs. */
  predicate WordChar(c: char) {
    'a' <= c <= 'z' || 'A' <= c <= 'Z' || '0' <= c <= '9' || c in ['_', '$']
  }

  lemma ClassesAgree(c: char)
    ensures (FrontByte(c) <==> LeadByte(c)) && (WordChar(c) <==> VerbByte(c))
  {
  }

  /** Only blanks and open parentheses are left of the front, the word is a whole word, and the tail does not go on with it. */
  predicate Fronted(front: string, word: string, tail: string) {
    && !EndsOpen(front, 0) && (forall c :: c in WithoutComments(front) ==> FrontByte(c))
    && word != "" && (forall c :: c in word ==> WordChar(c))
    && (tail == "" || !WordChar(tail[0]))
  }

  /** The text the classifier looks at. */
  function Shown(query: string): string {
    TrimSpace(WithoutComments(query))
  }

  lemma FrontStripped(front: string, word: string, tail: string)
    requires Fronted(front, word, tail)
    ensures WithoutComments(front + word + tail) == WithoutComments(front) + word + WithoutComments(tail)
    ensures var t := WithoutComments(tail); t == "" || !VerbByte(t[0])
  {
    forall c ensures WordChar(c) <==> VerbByte(c) { ClassesAgree(c); }
    var b := word + tail;
    assert b[0] == word[0] && word[0] in word;
    Assoc(front, word, tail);
    SeenBehind(front, b, 0);
    StrippedBehind(front, b, 0);
    WordStripped(word, tail);
    Assoc(WithoutComments(front), word, WithoutComments(tail));
  }

  lemma WordStripped(word: string, tail: string)
    requires word != "" && (forall c :: c in word ==> VerbByte(c)) && (tail == "" || !VerbByte(tail[0]))
    ensures WithoutComments(word + tail) == word + WithoutComments(tail)
    ensures var t := WithoutComments(tail); t == "" || !VerbByte(t[0])
  {
    var b := word + tail;
    forall j: nat | j < |word| ensures !CommentOpensAt(b, j) { assert b[j] == word[j] && word[j] in word; }
    PlainFront(b, 0, |word|);
    StrippedBehind(word, tail, 0);
    assert b[0..|word|] == word;
    StripLeavesNoComment(tail, 0);
  }

  /** The first word of a text that is lead bytes, a word and something else, blanks trimmed. */
  lemma FirstWordIs(lead: string, word: string, rest: string)
    requires forall c :: c in lead ==> LeadByte(c)
    requires word != "" && (forall c :: c in word ==> VerbByte(c)) && (rest == "" || !VerbByte(rest[0]))
    ensures TrimSpace(lead + word + rest) != ""
    ensures FirstWord(ToUpper(TrimSpace(lead + word + rest))) == ToUpper(word)
  {
    var lo, hi := WordIsShown(lead, word, rest);
    CutPoints(lead, word, rest);
    assert forall c :: c in (lead + word + rest)[lo..|lead|] ==> c in lead;
    assert |lead| + |word| < |lead + word + rest| ==> (lead + word + rest)[|lead| + |word|] == rest[0];
    FirstWordOfSlice(lead + word + rest, lo, hi, |lead|, word);
  }

  lemma FirstWordOfSlice(s: string, lo: nat, hi: nat, n: nat, word: string)
    requires lo <= n && n + |word| <= hi <= |s| && word != "" && s[n..n + |word|] == word
    requires (forall c :: c in s[lo..n] ==> LeadByte(c)) && (forall c :: c in word ==> VerbByte(c))
    requires n + |word| < hi ==> !VerbByte(s[n + |word|])
    ensures s[lo..hi] != "" && FirstWord(ToUpper(s[lo..hi])) == ToUpper(word)
  {
    var u, start := ToUpper(s[lo..hi]), n - lo;
    forall j | 0 <= j < start ensures LeadByte(u[j]) {
      assert s[lo..n][j] == s[lo + j] && s[lo..n][j] in s[lo..n];
    }
    forall j | start <= j < start + |word| ensures u[j] == UpperChar(word[j - start]) && VerbByte(u[j]) {
      assert s[lo + j] == s[n..n + |word|][j - start] && word[j - start] in word;
    }
    FirstWordAt(u, start, word);
  }

  /** Trimming cuts nothing of the word. */
  lemma WordIsShown(lead: string, word: string, rest: string) returns (lo: nat, hi: nat)
    requires word != "" && (forall c :: c in word ==> VerbByte(c))
    ensures lo <= |lead| && |lead| + |word| <= hi <= |lead + word + rest|
    ensures TrimSpace(lead + word + rest) == (lead + word + rest)[lo..hi]
  {
    var s, n, m := lead + word + rest, |lead|, |word|;
    lo, hi := TrimBounds(s);
    assert s[n] == word[0] && s[n + m - 1] == word[m - 1] && word[0] in word && word[m - 1] in word;
    forall j | 0 <= j < lo ensures IsSpace(s[j]) { assert IsSpace(s[..lo][j]); }
    forall j | hi <= j < |s| ensures IsSpace(s[j]) { assert IsSpace(s[hi..][j - hi]); }
  }

  lemma FirstWordAt(u: string, start: nat, word: string)
    requires word != "" && start + |word| <= |u|
    requires forall j :: 0 <= j < start ==> LeadByte(u[j])
    requires forall j :: start <= j < start + |word| ==> u[j] == UpperChar(word[j - start]) && VerbByte(u[j])
    requires start + |word| < |u| ==> !VerbByte(u[start + |word|])
    ensures FirstWord(u) == ToUpper(word)
  {
    RunIs(LeadByte, u, 0, start);
    RunIs(VerbByte, u, start, start + |word|);
    assert u[start..start + |word|] == ToUpper(word);
  }

  lemma ShownVerb(front: string, word: string, tail: string)
    requires Fronted(front, word, tail)
    ensures Shown(front + word + tail) != "" && FirstWord(ToUpper(Shown(front + word + tail))) == ToUpper(word)
  {
    FrontStripped(front, word, tail);
    forall c ensures (FrontByte(c) <==> LeadByte(c)) && (WordChar(c) <==> VerbByte(c)) { ClassesAgree(c); }
    FirstWordIs(WithoutComments(front), word, WithoutComments(tail));
  }

  // ------------------------------------------------------------------ WHERE words

  /** The word WHERE at i in any letter case, between plain blanks or at the end. */
  predicate WhereAt(t: string, i: nat) {
    0 < i && Scanner.LettersAt(t, "WHERE", i) && t[i - 1] == ' ' && (i + 5 == |t| || t[i + 5] == ' ')
  }

  lemma WhereOccurs(t: string)
    ensures (exists i: nat :: WhereAt(t, i)) <==>
      Occurs(" WHERE ", ToUpper(t)) || (|t| >= 6 && ToUpper(t)[|t| - 6..] == " WHERE")
  {
    if i: nat :| WhereAt(t, i) { WhereIsOccurrence(t, i); }
    OccurrenceIsWhere(t);
  }

  lemma WhereIsOccurrence(t: string, i: nat)
    requires WhereAt(t, i)
    ensures Occurs(" WHERE ", ToUpper(t)) || (|t| >= 6 && ToUpper(t)[|t| - 6..] == " WHERE")
  {
    var u := ToUpper(t);
    WhereSlice(t, i);
    if i + 5 == |t| { assert u[i - 1..] == u[i - 1..i + 5]; } else { assert OccursAt(" WHERE ", u, i - 1); }
  }

  lemma OccurrenceIsWhere(t: string)
    ensures Occurs(" WHERE ", ToUpper(t)) || (|t| >= 6 && ToUpper(t)[|t| - 6..] == " WHERE") ==> exists i: nat :: WhereAt(t, i)
  {
    var u := ToUpper(t);
    if Occurs(" WHERE ", u) {
      var k: nat :| k <= |u| && OccursAt(" WHERE ", u, k);
      WhereFound(t, k, u[k..k + 7]);
    }
    if |t| >= 6 && u[|t| - 6..] == " WHERE" { WhereFound(t, |t| - 6, u[|t| - 6..]); }
  }

  lemma WhereSlice(t: string, i: nat)
    requires WhereAt(t, i)
    ensures ToUpper(t)[i - 1..i + 5] == " WHERE"
    ensures i + 5 < |t| ==> ToUpper(t)[i - 1..i + 6] == " WHERE "
  {
    var u := ToUpper(t);
    assert forall j :: 0 <= j < 5 ==> UpperChar(t[i + j]) == UpperChar("WHERE"[j]);
    assert forall j :: 0 <= j < 5 ==> u[i + j] == "WHERE"[j];
    assert u[i - 1] == ' ' && u[i..i + 5] == "WHERE";
    assert u[i - 1..i + 5] == [u[i - 1]] + u[i..i + 5];
    assert i + 5 < |t| ==> u[i - 1..i + 6] == u[i - 1..i + 5] + [u[i + 5]];
  }

  lemma WhereFound(t: string, k: nat, w: string)
    requires k + |w| <= |t| && ToUpper(t)[k..k + |w|] == w && (w == " WHERE " || (w == " WHERE" && k + 6 == |t|))
    ensures WhereAt(t, k + 1)
  {
    var u := ToUpper(t);
    assert forall j :: 0 <= j < |w| ==> u[k + j] == w[j];
    forall j | 0 <= j < 5 ensures UpperChar(t[k + 1 + j]) == UpperChar("WHERE"[j]) {
      assert u[k + (1 + j)] == w[1 + j];
    }
    assert UpperChar(t[k]) == ' ' && (|w| == 7 ==> UpperChar(t[k + 6]) == ' ');
  }

  // -------------------------------------------------------------------- the verdict

  /** Behind no semicolon is there more than semicolons and blanks. */
  ghost predicate Single(query: string) {
    forall i: nat | i < |Shown(query)| :: !SecondStatementAt(Shown(query), i)
  }

  lemma SingleIsNotMultiple(query: string)
    ensures Single(query) <==> !HasMultipleStatements(Shown(query))
  {
    MultipleMeansSecond(Shown(query));
  }

  /**
   When a single statement is read-only: always behind one of the six reading words, behind WITH if and only if no
   writing word occurs anywhere in it, and never behind any other word.
   */
  lemma ReadOnlyIff(front: string, word: string, tail: string)
    requires Fronted(front, word, tail) && Single(front + word + tail)
    ensures var (q, w) := (front + word + tail, ToUpper(word));
      && ClassifyQuery(q).verb == w
      && (ClassifyQuery(q).readOnly <==>
          || w in ["SELECT", "SHOW", "EXPLAIN", "DESCRIBE", "DESC", "PRAGMA"]
          || (w == "WITH" && forall v | v in ["INSERT", "UPDATE", "DELETE", "MERGE", "DROP", "ALTER", "TRUNCATE", "CREATE",
                                              "GRANT", "REVOKE"] :: !Occurs(v, ToUpper(Shown(q)))))
  {
    ShownVerb(front, word, tail);
    SingleIsNotMultiple(front + word + tail);
  }

  /**
   When a single statement is destructive: always behind six words, behind DELETE and UPDATE if and only if no WHERE
   stands between plain blanks, behind CREATE if and only if a user or role follows, and never behind any other word.
   */
  lemma DestructiveIff(front: string, word: string, tail: string)
    requires Fronted(front, word, tail) && Single(front + word + tail)
    ensures var (q, w) := (front + word + tail, ToUpper(word));
      ClassifyQuery(q).destructive <==>
        || w in ["DROP", "TRUNCATE", "ALTER", "GRANT", "REVOKE", "RENAME"]
        || (w in ["DELETE", "UPDATE"] && forall i: nat :: !WhereAt(Shown(q), i))
        || (w == "CREATE" && ("CREATE USER" <= ToUpper(Shown(q)) || "CREATE ROLE" <= ToUpper(Shown(q))))
  {
    ShownVerb(front, word, tail);
    SingleIsNotMultiple(front + word + tail);
    WhereOccurs(Shown(front + word + tail));
    DestructiveVerdict(Shown(front + word + tail), ToUpper(word));
  }

  lemma DestructiveVerdict(t: string, w: string)
    requires t != "" && !HasMultipleStatements(t) && FirstWord(ToUpper(t)) == w
    ensures Verdict(t).destructive <==>
      || w in ["DROP", "TRUNCATE", "ALTER", "GRANT", "REVOKE", "RENAME"]
      || (w in ["DELETE", "UPDATE"] && !(Occurs(" WHERE ", ToUpper(t)) || (|t| >= 6 && ToUpper(t)[|t| - 6..] == " WHERE")))
      || (w == "CREATE" && ("CREATE USER" <= ToUpper(t) || "CREATE ROLE" <= ToUpper(t)))
  {
  }

  /** Several statements are never read-only and always destructive; nothing to run is harmless. */
  lemma OtherVerdicts(query: string)
    ensures Shown(query) == "" ==> ClassifyQuery(query) == QueryClass(true, false, "")
    ensures !Single(query) ==> ClassifyQuery(query) == QueryClass(false, true, "MULTI")
  {
    SingleIsNotMultiple(query);
  }

  // ------------------------------------------------------------- what the blanks cost

  /** UPDATE table SET a = ' WHERE ' */
  function LiteralWhere(table: string): string {
    "UPDATE " + table + " SET a = ' WHERE '"
  }

  /**
   A statement without WHERE clause that is not called destructive: the classifier takes the word in a literal for
   the clause, where the analyzer's scanner sees none.
   */
  lemma LiteralHidesMissingWhere(table: string)
    requires IsWord(table) && forall c :: c in table ==> UpperChar(c) != 'W'
    ensures var q := LiteralWhere(table);
      !ClassifyQuery(q).readOnly && !ClassifyQuery(q).destructive && forall i: nat :: !Scanner.KeywordAt(q, "WHERE", i)
  {
    LiteralWhereVerdict(table);
    LiteralWhereHidden(table);
  }

  lemma LiteralWhereVerdict(table: string)
    requires IsWord(table)
    ensures !ClassifyQuery(LiteralWhere(table)).readOnly && !ClassifyQuery(LiteralWhere(table)).destructive
  {
    var q, tail := LiteralWhere(table), " " + table + " SET a = ' WHERE '";
    LiteralWhereText(table);
    assert q == "UPDATE" + tail;
    UpdateWithWhere(q, tail, |q| - 7);
  }

  lemma UpdateWithWhere(q: string, tail: string, i: nat)
    requires q == "UPDATE" + tail && tail != "" && !WordChar(tail[0]) && ';' !in Shown(q) && WhereAt(Shown(q), i)
    ensures !ClassifyQuery(q).readOnly && !ClassifyQuery(q).destructive
  {
    assert q == "" + "UPDATE" + tail;
    assert Fronted("", "UPDATE", tail);
    assert ToUpper("UPDATE") == "UPDATE";
    ReadOnlyIff("", "UPDATE", tail);
    DestructiveIff("", "UPDATE", tail);
  }

  lemma LiteralWhereText(table: string)
    requires IsWord(table)
    ensures var q := LiteralWhere(table); Shown(q) == q && ';' !in q && WhereAt(q, |q| - 7)
  {
    var q := LiteralWhere(table);
    LiteralWherePlain(table);
    forall j: nat | j < |q| ensures !CommentOpensAt(q, j) { assert q[j] in q; }
    StripKeepsCommentFree(q, 0);
    assert q[0..] == q && q[0] == 'U' && q[|q| - 1] == '\'';
    TrimmedIsFixed(q);
    LiteralWhereStands("UPDATE " + table + " SET a = '");
    assert q == "UPDATE " + table + " SET a = '" + " WHERE '";
  }

  lemma LiteralWherePlain(table: string)
    requires IsWord(table)
    ensures var q := LiteralWhere(table); '-' !in q && '/' !in q && ';' !in q
  {
    assert forall c :: c in table ==> IsWordByte(c);
    assert forall c :: c in "UPDATE " + table + " SET a = ' WHERE '" ==> c != '-' && c != '/' && c != ';';
  }

  lemma LiteralWhereStands(head: string)
    ensures WhereAt(head + " WHERE '", |head| + 1)
  {
    var q, n := head + " WHERE '", |head|;
    assert forall j :: 0 <= j < 8 ==> q[n + j] == " WHERE '"[j];
    forall j | 0 <= j < 5 ensures UpperChar(q[n + 1 + j]) == UpperChar("WHERE"[j]) {
      assert q[n + (1 + j)] == " WHERE '"[1 + j];
    }
    assert q[n + 0] == ' ' && q[n + 6] == ' ';
  }

  lemma LiteralWhereHidden(table: string)
    requires IsWord(table) && forall c :: c in table ==> UpperChar(c) != 'W'
    ensures forall i: nat :: !Scanner.KeywordAt(LiteralWhere(table), "WHERE", i)
  {
    var q, head := LiteralWhere(table), "UPDATE " + table + " SET a = ";
    assert forall c :: c in table ==> IsWordByte(c);
    assert forall c :: c in head ==> c != '\'' && c != '(' && c != ')' && UpperChar(c) != 'W';
    assert q == head + "' WHERE '";
    forall j | 0 <= j < |head| ensures q[j] != '\'' && q[j] != '(' && q[j] != ')' && UpperChar(q[j]) != 'W' {
      assert q[j] == head[j] && head[j] in head;
    }
    Scanner.PlainRun(q, 0, |head|);
    forall i: nat ensures !Scanner.KeywordAt(q, "WHERE", i) {
      Scanner.LetterOf(q, "WHERE", i, 0);
      if |head| < i < |q| { Scanner.LiteralRun(q, |head| + 1, i); }
    }
  }
}
