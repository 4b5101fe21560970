/** The lexer turns the printed undo text back into its tokens. */
module RollbackLexing {
  import opened Text
  import opened SqlBuild
  import opened RollbackReader

  // ------------------------------------------------------ reading piece by piece

  /** A text no quoted name, literal or word can run into. */
  predicate Delim(s: string) {
    s != "" && s[0] in [',', ')', ' ', ';']
  }

  /** The text reads as these tokens whatever follows it. */
  ghost predicate Reads(driver: string, text: string, ts: seq<Token>) {
    forall rest: string :: Lex(driver, text + rest) == Then(ts, Lex(driver, rest))
  }

  /** The text reads as these tokens if a delimiter follows it. */
  ghost predicate ReadsBefore(driver: string, text: string, ts: seq<Token>) {
    forall rest: string :: Delim(rest) ==> Lex(driver, text + rest) == Then(ts, Lex(driver, rest))
  }

  lemma ThenThen(a: seq<Token>, b: seq<Token>, rest: Option<seq<Token>>)
    ensures Then(a, Then(b, rest)) == Then(a + b, rest)
    ensures Then([], rest) == rest
  {
    if rest.Some? {
      assert a + (b + rest.value) == (a + b) + rest.value;
      assert [] + rest.value == rest.value;
    }
  }

  lemma OpenThenClosed(driver: string, a: string, ta: seq<Token>, b: string, tb: seq<Token>)
    requires ReadsBefore(driver, a, ta) && Reads(driver, b, tb) && Delim(b)
    ensures Reads(driver, a + b, ta + tb)
  {
    forall rest: string ensures Lex(driver, (a + b) + rest) == Then(ta + tb, Lex(driver, rest)) {
      Assoc(a, b, rest);
      assert Delim(b + rest);
      ThenThen(ta, tb, Lex(driver, rest));
    }
  }

  lemma ClosedThenOpen(driver: string, a: string, ta: seq<Token>, b: string, tb: seq<Token>)
    requires Reads(driver, a, ta) && ReadsBefore(driver, b, tb)
    ensures ReadsBefore(driver, a + b, ta + tb)
  {
    forall rest: string | Delim(rest) ensures Lex(driver, (a + b) + rest) == Then(ta + tb, Lex(driver, rest)) {
      Assoc(a, b, rest);
      ThenThen(ta, tb, Lex(driver, rest));
    }
  }

  lemma ClosedThenClosed(driver: string, a: string, ta: seq<Token>, b: string, tb: seq<Token>)
    requires Reads(driver, a, ta) && Reads(driver, b, tb)
    ensures Reads(driver, a + b, ta + tb)
  {
    forall rest: string ensures Lex(driver, (a + b) + rest) == Then(ta + tb, Lex(driver, rest)) {
      Assoc(a, b, rest);
      ThenThen(ta, tb, Lex(driver, rest));
    }
  }

  function JoinTokens(items: seq<seq<Token>>, sep: Token): seq<Token> {
    if items == [] then []
    else if |items| == 1 then items[0]
    else items[0] + [sep] + JoinTokens(items[1..], sep)
  }

  lemma {:induction false} JoinReads(driver: string, parts: seq<string>, items: seq<seq<Token>>, sep: string, sepToken: Token)
    requires |parts| == |items|
    requires forall k :: 0 <= k < |parts| ==> ReadsBefore(driver, parts[k], items[k])
    requires Delim(sep) && Reads(driver, sep, [sepToken])
    ensures ReadsBefore(driver, Join(parts, sep), JoinTokens(items, sepToken))
  {
    if parts == [] {
      forall rest: string | Delim(rest) ensures Lex(driver, "" + rest) == Then([], Lex(driver, rest)) {
        assert "" + rest == rest;
        ThenThen([], [], Lex(driver, rest));
      }
    } else if |parts| > 1 {
      JoinReads(driver, parts[1..], items[1..], sep, sepToken);
      OpenThenClosed(driver, parts[0], items[0], sep, [sepToken]);
      ClosedThenOpen(driver, parts[0] + sep, items[0] + [sepToken], Join(parts[1..], sep), JoinTokens(items[1..], sepToken));
    }
  }

  // --------------------------------------------------------------- single tokens

  lemma {:induction false} ReadDoubled(mark: char, s: string, rest: string)
    requires rest == "" || rest[0] != mark
    ensures ReadQuoted(mark, Doubled(mark, s) + ([mark] + rest)) == Chunk(s, rest)
  {
    var tail := [mark] + rest;
    if s == "" {
      assert Doubled(mark, s) + tail == tail;
      assert tail[1..] == rest;
    } else {
      ReadDoubled(mark, s[1..], rest);
      var t := Doubled(mark, s[1..]) + tail;
      ReadOne(mark, s[0], t);
      Assoc(if s[0] == mark then [mark, mark] else [s[0]], Doubled(mark, s[1..]), tail);
      assert [s[0]] + s[1..] == s;
    }
  }

  /** One printed character in front of a quoted text. */
  lemma ReadOne(mark: char, c: char, t: string)
    requires ReadQuoted(mark, t).Chunk?
    ensures ReadQuoted(mark, (if c == mark then [mark, mark] else [c]) + t) ==
      Chunk([c] + ReadQuoted(mark, t).content, ReadQuoted(mark, t).rest)
  {
    if c == mark {
      assert ([mark, mark] + t)[2..] == t;
    } else {
      assert ([c] + t)[1..] == t;
    }
  }

  lemma IdentReads(driver: string, name: string)
    ensures ReadsBefore(driver, QuoteIdent(driver, name), [Ident(name)])
  {
    var open, close := MarksOf(driver).open, MarksOf(driver).close;
    forall rest: string | Delim(rest)
      ensures Lex(driver, QuoteIdent(driver, name) + rest) == Then([Ident(name)], Lex(driver, rest))
    {
      var body := Doubled(close, name) + ([close] + rest);
      assert QuoteIdent(driver, name) + rest == [open] + body;
      assert ([open] + body)[1..] == body;
      ReadDoubled(close, name, rest);
    }
  }

  lemma QuoteReads(driver: string, s: string)
    ensures ReadsBefore(driver, QuoteString(s), [Quote(s)])
  {
    forall rest: string | Delim(rest)
      ensures Lex(driver, QuoteString(s) + rest) == Then([Quote(s)], Lex(driver, rest))
    {
      var body := Doubled('\'', s) + (['\''] + rest);
      assert QuoteString(s) + rest == ['\''] + body;
      assert (['\''] + body)[1..] == body;
      ReadDoubled('\'', s, rest);
    }
  }

  /** A word, or a minus sign in front of one. */
  predicate WordLike(w: string) {
    && w != ""
    && (IsWordByte(w[0]) || (w[0] == '-' && |w| >= 2))
    && forall k :: 1 <= k < |w| ==> IsWordByte(w[k])
  }

  lemma WordEndIs(s: string, i: nat, r: nat)
    requires i <= r <= |s| && (forall k :: i <= k < r ==> IsWordByte(s[k])) && (r < |s| ==> !IsWordByte(s[r]))
    ensures WordEnd(s, i) == r
    decreases r - i
  {
    if i < r { WordEndIs(s, i + 1, r); }
  }

  lemma WordReads(driver: string, w: string)
    requires WordLike(w)
    ensures ReadsBefore(driver, w, [Word(w)])
  {
    forall rest: string | Delim(rest)
      ensures Lex(driver, w + rest) == Then([Word(w)], Lex(driver, rest))
    {
      var s := w + rest;
      assert forall k :: 0 <= k < |w| ==> s[k] == w[k];
      assert s[|w|] == rest[0];
      WordEndIs(s, 1, |w|);
      assert s[..|w|] == w && s[|w|..] == rest;
    }
  }

  lemma SymReads(driver: string, c: char)
    requires c in ['(', ')', ',', '=', ';']
    ensures Reads(driver, [c], [Sym(c)])
  {
    forall rest: string ensures Lex(driver, [c] + rest) == Then([Sym(c)], Lex(driver, rest)) {
      assert ([c] + rest)[1..] == rest;
    }
  }

  lemma BlankReads(driver: string, c: char)
    requires IsSpace(c)
    ensures Reads(driver, [c], [])
  {
    forall rest: string ensures Lex(driver, [c] + rest) == Then([], Lex(driver, rest)) {
      assert ([c] + rest)[1..] == rest;
      ThenThen([], [], Lex(driver, rest));
    }
  }

  /** A keyword between blanks: " WORD ". */
  lemma KeywordReads(driver: string, w: string)
    requires WordLike(w)
    ensures Reads(driver, w + " ", [Word(w)])
    ensures Reads(driver, " " + (w + " "), [Word(w)])
  {
    BlankReads(driver, ' ');
    WordReads(driver, w);
    assert [Word(w)] + [] == [Word(w)] == [] + [Word(w)];
    OpenThenClosed(driver, w, [Word(w)], " ", []);
    ClosedThenClosed(driver, " ", [], w + " ", [Word(w)]);
  }

  lemma CommaReads(driver: string)
    ensures Delim(", ") && Reads(driver, ", ", [Sym(',')])
  {
    SymReads(driver, ',');
    BlankReads(driver, ' ');
    ClosedThenClosed(driver, ",", [Sym(',')], " ", []);
    assert [Sym(',')] + [] == [Sym(',')] && "," + " " == ", ";
  }

  // -------------------------------------------------------------------- literals

  function LiteralToken(driver: string, v: Cell): Token {
    match v
    case Null => Word("NULL")
    case Bool(b) => Word(FormatBool(driver, b))
    case Int(n) => Word(FormatInt(n))
    case Str(s) => Quote(s)
  }

  lemma {:induction false} DigitsParse(n: nat)
    ensures WordLike(Digits(n)) && Digits(n)[0] != '-'
    ensures forall k :: 0 <= k < |Digits(n)| ==> '0' <= Digits(n)[k] <= '9'
    ensures ParseNat(Digits(n)) == Some(n)
  {
    if n >= 10 {
      DigitsParse(n / 10);
      var s := Digits(n);
      assert s[..|s| - 1] == Digits(n / 10) && s[|s| - 1] == Digit(n % 10);
    }
  }

  lemma LiteralReads(driver: string, v: Cell)
    ensures ReadsBefore(driver, FormatLiteral(driver, v), [LiteralToken(driver, v)])
    ensures ParseLiteral(LiteralToken(driver, v)) == Some(Stored(driver, v))
  {
    match v
    case Null => WordReads(driver, "NULL");
    case Bool(b) =>
      WordReads(driver, FormatBool(driver, b));
      assert ParseNat("1") == Some(1) && ParseNat("0") == Some(0);
    case Int(n) =>
      IntReads(driver, n);
    case Str(s) => QuoteReads(driver, s);
  }

  /** A number is printed without leading zeros, and with a minus sign only if it is negative. */
  lemma {:induction false} DigitsAreShortest(n: nat)
    ensures Digits(n)[0] == '0' <==> n == 0
    ensures n == 0 ==> Digits(n) == "0"
  {
    if n >= 10 { DigitsAreShortest(n / 10); }
  }

  lemma IntIsCanonical(n: int)
    ensures FormatInt(n)[0] == '-' <==> n < 0
    ensures n == 0 <==> FormatInt(n) == "0"
    ensures n > 0 ==> FormatInt(n)[0] != '0'
    ensures n < 0 ==> |FormatInt(n)| > 1 && FormatInt(n)[1] != '0'
  {
    if n >= 0 { DigitsParse(n); DigitsAreShortest(n); } else { DigitsParse(-n); DigitsAreShortest(-n); }
  }

  lemma NumberIsNoWord(w: string)
    requires w != "" && (w[0] == '-' || '0' <= w[0] <= '9')
    ensures w != "NULL" && w != "TRUE" && w != "FALSE"
  {
  }

  lemma IntIsParsed(n: int)
    ensures WordLike(FormatInt(n)) && ParseLiteral(Word(FormatInt(n))) == Some(Int(n))
  {
    var w := FormatInt(n);
    if n < 0 {
      DigitsParse(-n);
      assert w[1..] == Digits(-n);
    } else {
      DigitsParse(n);
    }
    NumberIsNoWord(w);
  }

  lemma IntReads(driver: string, n: int)
    ensures ReadsBefore(driver, FormatInt(n), [Word(FormatInt(n))])
    ensures ParseLiteral(Word(FormatInt(n))) == Some(Int(n))
  {
    IntIsParsed(n);
    WordReads(driver, FormatInt(n));
  }
}
