/**
 stripMCPSQLNoise (engine/internal/agent/mcp_scope.go): blanks literals and comments so that words
 inside them cannot pass for table references. The specification is an automaton that reads one
 byte at a time; the method is the flag-driven loop that consumes two-byte tokens at once.
 */
module NoiseStripper {
  import Scanner
  import opened CommentStripper

  /** What the byte at hand belongs to. Second(m): it is the second byte of a two-byte token, then m. */
  datatype Mode = Code | Literal | LineComment | BlockComment | Second(then_: Mode)

  predicate TokenAt(s: string, i: nat, a: char, b: char) {
    i + 1 < |s| && s[i] == a && s[i + 1] == b
  }

  function Next(m: Mode, s: string, i: nat): Mode
    requires i < |s|
  {
    match m
    case Code =>
      if s[i] == '\'' then Literal
      else if TokenAt(s, i, '-', '-') then Second(LineComment)
      else if TokenAt(s, i, '/', '*') then Second(BlockComment)
      else Code
    case Literal =>
      if TokenAt(s, i, '\'', '\'') then Second(Literal) else if s[i] == '\'' then Code else Literal
    case LineComment => if s[i] == '\n' then Code else LineComment
    case BlockComment => if TokenAt(s, i, '*', '/') then Second(Code) else BlockComment
    case Second(then_) => then_
  }

  function ModeAt(s: string, i: nat): Mode
    requires i <= |s|
  {
    if i == 0 then Code else Next(ModeAt(s, i - 1), s, i - 1)
  }

  /** Code outside literals and comments, and the newline that ends a line comment. */
  predicate Kept(s: string, i: nat)
    requires i < |s|
  {
    || (ModeAt(s, i) == Code && Next(Code, s, i) == Code)
    || (ModeAt(s, i) == LineComment && s[i] == '\n')
  }

  function CleanByte(s: string, i: nat): char
    requires i < |s|
  {
    if Kept(s, i) then s[i] else ' '
  }

  /** The text with every byte that is not kept turned into a blank. */
  function Cleaned(s: string): (r: string)
    ensures |r| == |s| && forall i :: 0 <= i < |s| ==> r[i] == CleanByte(s, i)
  {
    seq(|s|, i requires 0 <= i < |s| => CleanByte(s, i))
  }

  /** stripMCPSQLNoise. */
  method StripNoise(sql: string) returns (b: string)
    ensures b == Cleaned(sql)
  {
    b := "";
    var inSingle, inLineComment, inBlockComment := false, false, false;
    var i := 0;
    while i < |sql|
      invariant 0 <= i <= |sql| && |b| == i
      invariant forall k :: 0 <= k < i ==> b[k] == CleanByte(sql, k)
      invariant (inLineComment ==> !inBlockComment && !inSingle) && (inBlockComment ==> !inSingle)
      invariant ModeAt(sql, i) ==
        if inLineComment then LineComment else if inBlockComment then BlockComment else if inSingle then Literal else Code
    {
      var c := sql[i];
      var next := if i + 1 < |sql| then sql[i + 1] else '\0';
      if inLineComment {
        if c == '\n' {
          inLineComment := false;
          b := b + [c];
        } else {
          b := b + " ";
        }
      } else if inBlockComment {
        if c == '*' && next == '/' {
          assert ModeAt(sql, i + 1) == Second(Code);
          b := b + "  ";
          i := i + 1;
          inBlockComment := false;
        } else {
          b := b + " ";
        }
      } else if inSingle {
        if c == '\'' {
          if next == '\'' {
            assert ModeAt(sql, i + 1) == Second(Literal);
            b := b + "  ";
            i := i + 1;
          } else {
            inSingle := false;
            b := b + " ";
          }
        } else {
          b := b + " ";
        }
      } else if c == '\'' {
        inSingle := true;
        b := b + " ";
      } else if c == '-' && next == '-' {
        assert ModeAt(sql, i + 1) == Second(LineComment);
        b := b + "  ";
        i := i + 1;
        inLineComment := true;
      } else if c == '/' && next == '*' {
        assert ModeAt(sql, i + 1) == Second(BlockComment);
        b := b + "  ";
        i := i + 1;
        inBlockComment := true;
      } else {
        b := b + [c];
      }
      i := i + 1;
    }
  }

  predicate NoiseFree(s: string) {
    '\'' !in s && CommentFree(s)
  }

  /** The cleaned text has no quote and opens no comment. */
  lemma CleanedIsNoiseFree(s: string)
    ensures NoiseFree(Cleaned(s))
  {
    var r := Cleaned(s);
    forall i | 0 <= i < |r| ensures r[i] != '\'' {
      assert r[i] == CleanByte(s, i);
    }
    forall i: nat | i < |r| ensures !CommentOpensAt(r, i) {
      if i + 1 < |r| {
        assert r[i] == CleanByte(s, i) && r[i + 1] == CleanByte(s, i + 1);
      }
    }
  }

  /** From a position outside literals and comments on, text without quotes and comment openers is kept. */
  lemma {:induction false} CodeRun(s: string, a: nat, b: nat)
    requires a <= b <= |s| && ModeAt(s, a) == Code
    requires forall j: nat | a <= j < b :: s[j] != '\'' && !CommentOpensAt(s, j)
    ensures ModeAt(s, b) == Code
    ensures forall j | a <= j < b :: Kept(s, j)
    decreases b - a
  {
    if a < b { CodeRun(s, a, b - 1); }
  }

  /** Text without quotes and comment openers is left alone. */
  lemma NoiseFreeIsFixed(s: string)
    requires NoiseFree(s)
    ensures Cleaned(s) == s
  {
    CodeRun(s, 0, |s|);
  }

  lemma CleaningIsIdempotent(s: string)
    ensures Cleaned(Cleaned(s)) == Cleaned(s)
  {
    CleanedIsNoiseFree(s);
    NoiseFreeIsFixed(Cleaned(s));
  }

  /** Cleaning changes nothing exactly on text it has nothing to say about: quotes and comment openers are the only triggers. */
  lemma FixedMeansNoiseFree(s: string)
    ensures Cleaned(s) == s <==> NoiseFree(s)
  {
    if Cleaned(s) == s { CleanedIsNoiseFree(s); }
    if NoiseFree(s) { NoiseFreeIsFixed(s); }
  }

  /** No comment opens before position n outside a literal. */
  predicate NoCommentBefore(s: string, n: nat) {
    forall i: nat | i < n && i < |s| :: ModeAt(s, i) == Code ==> !CommentOpensAt(s, i)
  }

  /** Up to the first comment the automaton tracks the analyzer's literal flag. */
  lemma {:induction false} LiteralsAgree(s: string, i: nat)
    requires i <= |s| && NoCommentBefore(s, i)
    ensures ModeAt(s, i) == Code || ModeAt(s, i) == Literal || (ModeAt(s, i) == Second(Literal) && i < |s| && s[i] == '\'')
    ensures ModeAt(s, i) == Literal <==> Scanner.InLiteral(s, i)
  {
    if i > 0 {
      LiteralsAgree(s, i - 1);
      assert ModeAt(s, i - 1) == Code ==> !CommentOpensAt(s, i - 1);
    }
  }

  /** The byte is blanked exactly if it is a quote or the analyzer takes it for literal. */
  ghost predicate BlankedAsLiteral(s: string, i: nat)
    requires i < |s|
  {
    !Kept(s, i) <==> Scanner.InLiteral(s, i) || s[i] == '\''
  }

  lemma {:induction false} FirstComment(s: string, n: nat) returns (i: nat)
    requires n <= |s| && !NoCommentBefore(s, n)
    ensures i < n && NoCommentBefore(s, i) && ModeAt(s, i) == Code && CommentOpensAt(s, i)
  {
    if NoCommentBefore(s, n - 1) { i := n - 1; } else { i := FirstComment(s, n - 1); }
  }

  /**
   The blanked bytes are everywhere exactly the quotes and what the analyzer takes for literal, if and only if no
   comment opens outside a literal. Marks inside literals do no harm.
   */
  lemma BlankedIsLiteral(s: string)
    ensures (forall i: nat | i < |s| :: BlankedAsLiteral(s, i)) <==> NoCommentBefore(s, |s|)
  {
    if NoCommentBefore(s, |s|) {
      forall i: nat | i < |s| ensures BlankedAsLiteral(s, i) {
        LiteralsAgree(s, i);
        assert ModeAt(s, i) == Code ==> !CommentOpensAt(s, i);
      }
    } else {
      var i := FirstComment(s, |s|);
      LiteralsAgree(s, i);
      assert !BlankedAsLiteral(s, i);
    }
  }

  /** A byte that, met in this mode, neither ends it nor helps to. */
  predicate Hidden(m: Mode, c: char) {
    match m
    case Literal => c != '\''
    case LineComment => c != '\n'
    case BlockComment => c != '*' && c != '/'
    case _ => false
  }

  /** Putting another such byte in its place changes the mode nowhere. */
  lemma {:induction false} HiddenKeepsModes(s: string, i: nat, c: char, j: nat)
    requires i < |s| && Hidden(ModeAt(s, i), s[i]) && Hidden(ModeAt(s, i), c) && j <= |s|
    ensures ModeAt(s[i := c], j) == ModeAt(s, j)
  {
    if j > 0 {
      HiddenKeepsModes(s, i, c, j - 1);
      var t, m := s[i := c], ModeAt(s, j - 1);
      if j == i {
        assert m == Code ==> s[j - 1] == '\'';
        assert Next(m, t, j - 1) == Next(m, s, j - 1);
      } else if j - 1 == i {
        assert Next(m, t, j - 1) == m == Next(m, s, j - 1);
      } else {
        assert t[j - 1] == s[j - 1] && (j < |s| && j != i ==> t[j] == s[j]);
      }
    }
  }

  /** What stands inside literals and comments has no influence on the cleaned text. */
  lemma HiddenByteIsBlanked(s: string, i: nat, c: char)
    requires i < |s| && Hidden(ModeAt(s, i), s[i]) && Hidden(ModeAt(s, i), c)
    ensures Cleaned(s[i := c]) == Cleaned(s)
  {
    var t := s[i := c];
    forall j | 0 <= j < |s| ensures CleanByte(t, j) == CleanByte(s, j) {
      HiddenKeepsModes(s, i, c, j);
      HiddenKeepsModes(s, i, c, j + 1);
    }
  }
}
