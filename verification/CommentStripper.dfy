/**
 What stripComments of engine/internal/analyzer/parser.go does to a text. It looks for comments
 everywhere, inside literals too: which texts it leaves alone, and how it treats a text put together
 from two pieces.
 */
module CommentStripper {
  import opened Text

  function LineEnd(s: string, i: nat): (r: nat)
    requires i <= |s|
    ensures i <= r <= |s| && (r < |s| ==> s[r] == '\n')
    decreases |s| - i
  {
    if i == |s| || s[i] == '\n' then i else LineEnd(s, i + 1)
  }

  lemma {:induction false} LineGoesOn(s: string, i: nat)
    requires i <= |s|
    ensures forall j :: i <= j < LineEnd(s, i) ==> s[j] != '\n'
    decreases |s| - i
  {
    if i < |s| && s[i] != '\n' { LineGoesOn(s, i + 1); }
  }

  predicate LineMarkAt(s: string, i: nat) {
    i + 1 < |s| && s[i] == '-' && s[i + 1] == '-'
  }

  predicate BlockOpensAt(s: string, i: nat) {
    i + 1 < |s| && s[i] == '/' && s[i + 1] == '*'
  }

  predicate BlockClosesAt(s: string, j: nat) {
    j + 1 < |s| && s[j] == '*' && s[j + 1] == '/'
  }

  /** reLineComment: each "--" up to the end of its line becomes one blank. */
  function StripLineComments(s: string): string
    decreases |s|
  {
    if s == "" then ""
    else if LineMarkAt(s, 0) then " " + StripLineComments(s[LineEnd(s, 2)..])
    else [s[0]] + StripLineComments(s[1..])
  }

  /** Position of the first star-slash pair at or after i, |s| if there is none. */
  function BlockEnd(s: string, i: nat): (r: nat)
    requires i <= |s|
    ensures i <= r <= |s| && (r < |s| ==> BlockClosesAt(s, r))
    decreases |s| - i
  {
    if i + 1 >= |s| then |s| else if BlockClosesAt(s, i) then i else BlockEnd(s, i + 1)
  }

  lemma {:induction false} BlockGoesOn(s: string, i: nat)
    requires i <= |s|
    ensures forall j: nat :: i <= j < BlockEnd(s, i) ==> !BlockClosesAt(s, j)
    decreases |s| - i
  {
    if i + 1 < |s| && !BlockClosesAt(s, i) { BlockGoesOn(s, i + 1); }
  }

  /** The text starts with a closed block comment. */
  predicate BlockAhead(s: string) {
    BlockOpensAt(s, 0) && BlockEnd(s, 2) < |s|
  }

  /** reBlockComment: each closed block comment becomes one blank, an unclosed one stays. */
  function StripBlockComments(s: string): string
    decreases |s|
  {
    if s == "" then ""
    else if BlockAhead(s) then " " + StripBlockComments(s[BlockEnd(s, 2) + 2..])
    else [s[0]] + StripBlockComments(s[1..])
  }

  function StripComments(s: string): string {
    StripBlockComments(StripLineComments(s))
  }

  predicate CommentOpensAt(s: string, i: nat) {
    LineMarkAt(s, i) || BlockOpensAt(s, i)
  }

  predicate CommentFree(s: string) {
    forall i: nat | i < |s| :: !CommentOpensAt(s, i)
  }

  /** A block comment opens at i and can be closed at j. */
  predicate BlockMark(s: string, i: nat, j: nat) {
    i + 2 <= j && BlockOpensAt(s, i) && BlockClosesAt(s, j)
  }

  /** No line comment starts anywhere, and no block comment is opened and closed. */
  predicate Uncommented(s: string) {
    && (forall i: nat | i < |s| :: !LineMarkAt(s, i))
    && (forall i: nat, j: nat | i < j < |s| :: !BlockMark(s, i, j))
  }

  // --------------------------------------------------------------- what stays

  lemma UncommentedSlice(s: string, a: nat, b: nat)
    requires Uncommented(s) && a <= b <= |s|
    ensures Uncommented(s[a..b])
  {
    var t := s[a..b];
    forall i: nat | i < |t| ensures !LineMarkAt(t, i) { assert !LineMarkAt(s, a + i); }
    forall i: nat, j: nat | i < j < |t| ensures !BlockMark(t, i, j) { assert !BlockMark(s, a + i, a + j); }
  }

  /** Text without dashes and slashes in front opens no comment. */
  lemma UncommentedBehind(head: string, s: string)
    requires '-' !in head && '/' !in head
    ensures Uncommented(head + s) <==> Uncommented(s)
  {
    var t, n := head + s, |head|;
    assert t[n..|t|] == s;
    if Uncommented(t) { UncommentedSlice(t, n, |t|); }
    if Uncommented(s) {
      forall i: nat | i < |t| ensures !LineMarkAt(t, i) {
        if i < n { assert t[i] in head; } else { assert !LineMarkAt(s, i - n); }
      }
      forall i: nat, j: nat | i < j < |t| ensures !BlockMark(t, i, j) {
        if i < n { assert t[i] in head; } else { assert !BlockMark(s, i - n, j - n); }
      }
    }
  }

  lemma {:induction false} LinesStay(s: string)
    requires forall i: nat | i < |s| :: !LineMarkAt(s, i)
    ensures StripLineComments(s) == s
  {
    if s != "" {
      var t := s[1..];
      assert !LineMarkAt(s, 0);
      forall i: nat | i < |t| ensures !LineMarkAt(t, i) { assert !LineMarkAt(s, i + 1); }
      LinesStay(t);
    }
  }

  lemma {:induction false} BlocksStay(s: string)
    requires forall i: nat, j: nat | i < j < |s| :: !BlockMark(s, i, j)
    ensures StripBlockComments(s) == s
  {
    if s != "" {
      var t := s[1..];
      assert BlockAhead(s) ==> BlockMark(s, 0, BlockEnd(s, 2));
      forall i: nat, j: nat | i < j < |t| ensures !BlockMark(t, i, j) { assert !BlockMark(s, i + 1, j + 1); }
      BlocksStay(t);
    }
  }

  // ----------------------------------------------------------- what is left

  /** Each output starts with a blank or with what the input starts with. */
  lemma StripHeads(s: string)
    ensures var r := StripLineComments(s); r != "" ==> s != "" && (r[0] == ' ' || r[0] == s[0])
    ensures var r := StripBlockComments(s); r != "" ==> s != "" && (r[0] == ' ' || r[0] == s[0])
  {
  }

  lemma {:induction false} NoLineIsLeft(s: string)
    ensures forall i: nat :: !LineMarkAt(StripLineComments(s), i)
    decreases |s|
  {
    if s != "" {
      var r := StripLineComments(s);
      var t := if LineMarkAt(s, 0) then s[LineEnd(s, 2)..] else s[1..];
      NoLineIsLeft(t);
      StripHeads(t);
      assert r[1..] == StripLineComments(t);
      forall i: nat ensures !LineMarkAt(r, i) {
        if i > 0 { assert !LineMarkAt(r[1..], i - 1); }
      }
    }
  }

  lemma {:induction false} BlocksBringNoLine(s: string)
    requires forall i: nat | i < |s| :: !LineMarkAt(s, i)
    ensures forall i: nat :: !LineMarkAt(StripBlockComments(s), i)
    decreases |s|
  {
    if s != "" {
      var r := StripBlockComments(s);
      var k := if BlockAhead(s) then BlockEnd(s, 2) + 2 else 1;
      var t := s[k..];
      assert !LineMarkAt(s, 0);
      forall i: nat | i < |t| ensures !LineMarkAt(t, i) { assert !LineMarkAt(s, k + i); }
      BlocksBringNoLine(t);
      StripHeads(t);
      assert r[1..] == StripBlockComments(t);
      forall i: nat ensures !LineMarkAt(r, i) {
        if i > 0 { assert !LineMarkAt(r[1..], i - 1); }
      }
    }
  }

  /** A block comment that is not closed in the text stays, and so does everything behind it. */
  lemma OpenBlockStays(s: string)
    requires BlockOpensAt(s, 0) && !BlockAhead(s)
    ensures StripBlockComments(s[1..]) == s[1..]
  {
    var t := s[1..];
    BlockGoesOn(s, 2);
    forall j: nat | 1 <= j ensures !BlockClosesAt(t, j) {
      assert !BlockClosesAt(s, j + 1);
    }
    BlocksStay(t);
  }

  lemma {:induction false} NoBlockIsLeft(s: string)
    ensures forall i: nat, j: nat :: !BlockMark(StripBlockComments(s), i, j)
    decreases |s|
  {
    if s != "" {
      var r := StripBlockComments(s);
      var t := if BlockAhead(s) then s[BlockEnd(s, 2) + 2..] else s[1..];
      NoBlockIsLeft(t);
      StripHeads(t);
      assert r[1..] == StripBlockComments(t);
      forall i: nat, j: nat ensures !BlockMark(r, i, j) {
        if i > 0 && j > 0 { assert !BlockMark(r[1..], i - 1, j - 1); }
        if BlockOpensAt(s, 0) && !BlockAhead(s) {
          OpenBlockStays(s);
          BlockGoesOn(s, 2);
          assert r == s;
        }
      }
    }
  }

  /** What is left holds no comment, so stripping again changes nothing. */
  lemma StrippedIsUncommented(s: string)
    ensures Uncommented(StripComments(s))
    ensures StripComments(StripComments(s)) == StripComments(s)
  {
    NoLineIsLeft(s);
    BlocksBringNoLine(StripLineComments(s));
    NoBlockIsLeft(StripLineComments(s));
    LinesStay(StripComments(s));
    BlocksStay(StripComments(s));
  }

  /** stripComments leaves a text alone exactly if it holds no line comment and no closed block comment. */
  lemma StripIsIdentityIff(s: string)
    ensures StripComments(s) == s <==> Uncommented(s)
  {
    StrippedIsUncommented(s);
    if Uncommented(s) {
      LinesStay(s);
      BlocksStay(s);
    }
  }

  // ------------------------------------------------------- texts put together

  /** The last line comment of the text runs up to its end. */
  predicate EndsInLineComment(s: string)
    decreases |s|
  {
    |s| >= 2 &&
    if LineMarkAt(s, 0) then LineEnd(s, 2) == |s| || EndsInLineComment(s[LineEnd(s, 2)..]) else EndsInLineComment(s[1..])
  }

  /** A block comment is opened and not closed. */
  predicate EndsInBlockComment(s: string)
    decreases |s|
  {
    |s| >= 2 &&
    if BlockOpensAt(s, 0) then !BlockAhead(s) || EndsInBlockComment(s[BlockEnd(s, 2) + 2..])
    else EndsInBlockComment(s[1..])
  }

  /** Whatever follows the text starts outside comments. */
  predicate CommentsClosed(s: string) {
    !EndsInLineComment(s) && !EndsInBlockComment(StripLineComments(s))
  }

  lemma {:induction false} LineEndOfJoin(a: string, b: string, i: nat)
    requires i <= |a|
    ensures LineEnd(a, i) < |a| ==> LineEnd(a + b, i) == LineEnd(a, i)
    ensures LineEnd(a, i) == |a| && '\n' !in b ==> LineEnd(a + b, i) == |a + b|
    decreases |a| - i
  {
    if i < |a| {
      LineEndOfJoin(a, b, i + 1);
    } else {
      var k := LineEnd(a + b, i);
      if k < |a + b| { assert (a + b)[k] == b[k - |a|]; }
    }
  }

  lemma {:induction false} BlockEndOfJoin(a: string, b: string, i: nat)
    requires i <= |a| && BlockEnd(a, i) < |a|
    ensures BlockEnd(a + b, i) == BlockEnd(a, i)
    decreases |a| - i
  {
    if !BlockClosesAt(a, i) { BlockEndOfJoin(a, b, i + 1); }
  }

  lemma {:induction false} LinesApart(a: string, b: string)
    requires !EndsInLineComment(a) && (b == "" || b[0] != '-')
    ensures StripLineComments(a + b) == StripLineComments(a) + StripLineComments(b)
    decreases |a|
  {
    var s := a + b;
    if a == "" {
      assert s == b;
    } else if LineMarkAt(a, 0) {
      var k := LineEnd(a, 2);
      LineEndOfJoin(a, b, 2);
      assert s[k..] == a[k..] + b;
      LinesApart(a[k..], b);
      Assoc(" ", StripLineComments(a[k..]), StripLineComments(b));
    } else {
      assert s[1..] == a[1..] + b;
      LinesApart(a[1..], b);
      Assoc([a[0]], StripLineComments(a[1..]), StripLineComments(b));
      assert !LineMarkAt(s, 0);
    }
  }

  lemma {:induction false} BlocksApart(a: string, b: string)
    requires !EndsInBlockComment(a) && (b == "" || b[0] != '*')
    ensures StripBlockComments(a + b) == StripBlockComments(a) + StripBlockComments(b)
    decreases |a|
  {
    var s := a + b;
    if a == "" {
      assert s == b;
    } else if BlockOpensAt(a, 0) {
      var k := BlockEnd(a, 2);
      BlockEndOfJoin(a, b, 2);
      assert s[k + 2..] == a[k + 2..] + b;
      BlocksApart(a[k + 2..], b);
      Assoc(" ", StripBlockComments(a[k + 2..]), StripBlockComments(b));
    } else {
      assert s[1..] == a[1..] + b;
      BlocksApart(a[1..], b);
      Assoc([a[0]], StripBlockComments(a[1..]), StripBlockComments(b));
      assert !BlockOpensAt(s, 0);
    }
  }

  /** Text behind closed comments is stripped on its own. */
  lemma StripsApart(a: string, b: string)
    requires CommentsClosed(a) && (b == "" || (b[0] != '-' && b[0] != '*'))
    ensures StripComments(a + b) == StripComments(a) + StripComments(b)
  {
    LinesApart(a, b);
    StripHeads(b);
    BlocksApart(StripLineComments(a), StripLineComments(b));
  }

  /** Text without dashes and slashes is left alone in front of any other text. */
  lemma StripBehind(head: string, s: string)
    requires '-' !in head && '/' !in head
    ensures StripComments(head + s) == head + StripComments(s)
    decreases |head|
  {
    if head == "" {
      assert head + s == s;
      assert "" + StripComments(s) == StripComments(s);
    } else {
      var t := head[1..] + s;
      assert (head + s)[1..] == t && head + s == [head[0]] + t;
      assert head[0] in head && forall c :: c in head[1..] ==> c in head;
      StripBehind(head[1..], s);
      assert StripLineComments(head + s) == [head[0]] + StripLineComments(t);
      assert StripComments(head + s) == [head[0]] + StripComments(t);
      assert [head[0]] + (head[1..] + StripComments(s)) == head + StripComments(s);
    }
  }

  /** Text appended on the line of an open line comment disappears with it. */
  lemma {:induction false} LineSwallows(a: string, b: string)
    requires EndsInLineComment(a) && '\n' !in b
    ensures StripLineComments(a + b) == StripLineComments(a)
    decreases |a|
  {
    var s := a + b;
    if LineMarkAt(a, 0) {
      var k := LineEnd(a, 2);
      LineEndOfJoin(a, b, 2);
      if k < |a| {
        assert s[k..] == a[k..] + b;
        LineSwallows(a[k..], b);
      }
    } else {
      assert s[1..] == a[1..] + b;
      LineSwallows(a[1..], b);
    }
  }

  /** No line comment opens in the text, not even with a dash behind it. */
  predicate NoLineMark(a: string) {
    forall i: nat | i < |a| :: !LineMarkAt(a + "-", i)
  }

  lemma NoLineMarkTail(a: string, b: string)
    requires a != "" && NoLineMark(a)
    ensures NoLineMark(a[1..]) && !LineMarkAt(a + "-" + b, 0)
  {
    var t := a[1..] + "-";
    assert t == (a + "-")[1..];
    forall i: nat | i < |a[1..]| ensures !LineMarkAt(t, i) { assert !LineMarkAt(a + "-", i + 1); }
    assert !LineMarkAt(a + "-", 0);
  }

  /** The first line comment of a text that has no further line goes with everything behind it. */
  lemma {:induction false} LineMarkCuts(a: string, b: string)
    requires NoLineMark(a) && '\n' !in b
    ensures StripLineComments(a + "--" + b) == a + " "
    decreases |a|
  {
    var s := a + "--" + b;
    if a == "" {
      assert s == "--" + b;
      assert LineEnd(s, 2) == |s| by { assert forall j :: 2 <= j < |s| ==> s[j] == b[j - 2] && s[j] in b; }
      assert s[LineEnd(s, 2)..] == "";
    } else {
      TailOfJoin(a, "--", b);
      assert s == a + "-" + ("-" + b);
      NoLineMarkTail(a, "-" + b);
      LineMarkCuts(a[1..], b);
      assert [a[0]] + (a[1..] + " ") == a + " ";
    }
  }

  /** A block comment becomes one blank, if none is opened in front of it. */
  lemma {:induction false} BlockMarkCuts(x: string, y: string, z: string)
    requires forall i: nat | i < |x| :: !BlockOpensAt(x, i)
    requires forall j: nat | j < |y| :: !BlockClosesAt(y, j)
    ensures StripBlockComments(x + "/*" + y + "*/" + z) == x + " " + StripBlockComments(z)
    decreases |x|
  {
    var s := x + "/*" + y + "*/" + z;
    if x == "" {
      BlockEndFound(s, y, z);
      assert s[|y| + 4..] == z;
      assert "" + " " == " ";
    } else {
      var t := x[1..] + "/*" + y + "*/" + z;
      assert s == [x[0]] + t && s[1..] == t;
      forall i: nat | i < |x[1..]| ensures !BlockOpensAt(x[1..], i) { assert !BlockOpensAt(x, i + 1); }
      assert !BlockOpensAt(x, 0);
      BlockMarkCuts(x[1..], y, z);
      assert s[1] == if |x| > 1 then x[1] else '/';
      assert [x[0]] + (x[1..] + " " + StripBlockComments(z)) == x + " " + StripBlockComments(z);
    }
  }

  lemma BlockEndFound(s: string, y: string, z: string)
    requires s == "/*" + y + "*/" + z
    requires forall j: nat | j < |y| :: !BlockClosesAt(y, j)
    ensures BlockEnd(s, 2) == |y| + 2
  {
    assert s[|y| + 2] == '*' && s[|y| + 3] == '/';
    assert BlockClosesAt(s, |y| + 2);
    forall j: nat | 2 <= j < |y| + 2 ensures !BlockClosesAt(s, j) {
      assert s[j] == y[j - 2] && (j < |y| + 1 ==> s[j + 1] == y[j - 1]);
      assert !BlockClosesAt(y, j - 2);
    }
    BlockEndIs(s, 2, |y| + 2);
  }

  lemma {:induction false} BlockEndIs(s: string, i: nat, r: nat)
    requires i <= r && BlockClosesAt(s, r) && forall j: nat :: i <= j < r ==> !BlockClosesAt(s, j)
    ensures BlockEnd(s, i) == r
    decreases r - i
  {
    if i < r { BlockEndIs(s, i + 1, r); }
  }
}
