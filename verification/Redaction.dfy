/** Redact (engine/internal/agent/service.go): every registered secret is replaced by a placeholder. */
module Redaction {
  import opened Text

  const PLACEHOLDER := "[redacted]"

  /** strings.ReplaceAll for a non-empty old text: leftmost matches, not overlapping. */
  function ReplaceAll(text: string, old_: string, new_: string): string
    requires old_ != ""
    decreases |text|
  {
    if |text| < |old_| then text
    else if old_ <= text then new_ + ReplaceAll(text[|old_|..], old_, new_)
    else [text[0]] + ReplaceAll(text[1..], old_, new_)
  }

  function Redacted(text: string, secrets: seq<string>): string
    decreases |secrets|
  {
    if secrets == [] then text
    else
      var before := Redacted(text, secrets[..|secrets| - 1]);
      var sec := secrets[|secrets| - 1];
      if sec == "" then before else ReplaceAll(before, sec, PLACEHOLDER)
  }

  method Redact(text: string, secrets: seq<string>) returns (r: string)
    ensures r == Redacted(text, secrets)
  {
    r := text;
    for i := 0 to |secrets|
      invariant r == Redacted(text, secrets[..i])
    {
      assert secrets[..i + 1][..i] == secrets[..i];
      if secrets[i] != "" { r := ReplaceAll(r, secrets[i], PLACEHOLDER); }
    }
    assert secrets[..|secrets|] == secrets;
  }

  /** s and p can share text neither by containment nor by one ending where the other begins. */
  predicate Apart(s: string, p: string) {
    && !Occurs(s, p) && !Occurs(p, s)
    && (forall k | 0 < k <= |s| && k <= |p| :: s[..k] != p[|p| - k..])
    && (forall k | 0 < k <= |s| && k <= |p| :: s[|s| - k..] != p[..k])
  }

  /** A secret the placeholder cannot help to re-create. */
  predicate Safe(sec: string) {
    sec != "" && Apart(sec, PLACEHOLDER)
  }

  /** Sharing no character with the placeholder is enough. */
  lemma NoSharedCharacterIsSafe(sec: string)
    requires sec != "" && forall c :: c in sec ==> c !in PLACEHOLDER
    ensures Safe(sec)
  {
    var p := PLACEHOLDER;
    forall i: nat | i <= |p| ensures !OccursAt(sec, p, i) {
      if i + |sec| <= |p| { assert p[i..i + |sec|][0] == p[i] && sec[0] in sec; }
    }
    forall i: nat | i <= |sec| ensures !OccursAt(p, sec, i) {
      if i + |p| <= |sec| { assert sec[i..i + |p|][0] == sec[i] && sec[i] in sec; }
    }
    forall k | 0 < k <= |sec| && k <= |p| ensures sec[..k] != p[|p| - k..] && sec[|sec| - k..] != p[..k] {
      assert sec[..k][0] == sec[0] && sec[0] in sec && p[|p| - k..][0] in p;
      assert sec[|sec| - k..][0] == sec[|sec| - k] && sec[|sec| - k] in sec && p[..k][0] in p;
    }
  }

  // ------------------------------------------------------------------ no new occurrence

  /** A suffix of a safe text that begins the replaced text began the original one. */
  lemma {:induction false} PrefixSurvives(text: string, old_: string, p: string, s: string, from: nat)
    requires old_ != "" && Apart(s, p) && p != ""
    requires from <= |s| && s[from..] <= ReplaceAll(text, old_, p)
    ensures s[from..] <= text
    decreases |s| - from, |text|
  {
    var r, a := ReplaceAll(text, old_, p), s[from..];
    if a != "" && |text| >= |old_| {
      if old_ <= text {
        SuffixMeetsPlaceholder(p, ReplaceAll(text[|old_|..], old_, p), s, from);
      } else {
        var t := text[1..];
        assert a[0] == r[0] == text[0];
        assert s[from + 1..] == a[1..] && r[1..] == ReplaceAll(t, old_, p);
        PrefixSurvives(t, old_, p, s, from + 1);
        assert text == [text[0]] + t && a == [a[0]] + a[1..];
      }
    }
  }

  lemma SuffixMeetsPlaceholder(p: string, rest: string, s: string, from: nat)
    requires p != "" && from < |s| && s[from..] <= p + rest
    ensures !Apart(s, p)
  {
    var a := s[from..];
    if |a| <= |p| {
      assert s[|s| - |a|..] == a == (p + rest)[..|a|] == p[..|a|];
    } else {
      assert s[from..from + |p|] == a[..|p|] == (p + rest)[..|p|] == p;
      assert OccursAt(p, s, from);
    }
  }

  /** An occurrence that starts inside the placeholder means the two are not apart. */
  lemma OccurrenceMeetsPlaceholder(p: string, rest: string, s: string, j: nat)
    requires j < |p| && s != "" && OccursAt(s, p + rest, j)
    ensures !Apart(s, p)
  {
    var r := p + rest;
    if j + |s| <= |p| {
      assert p[j..j + |s|] == r[j..j + |s|];
      assert OccursAt(s, p, j);
    } else {
      var k := |p| - j;
      assert s[..k] == r[j..j + |s|][..k] == p[|p| - k..];
    }
  }

  lemma OccursBehind(head: string, tail: string, s: string, j: nat)
    ensures OccursAt(s, tail, j) <==> OccursAt(s, head + tail, |head| + j)
  {
    if j + |s| <= |tail| { assert (head + tail)[|head| + j..|head| + j + |s|] == tail[j..j + |s|]; }
  }

  /** Replacing other text by the placeholder creates no occurrence of a safe text. */
  lemma {:induction false} OccurrenceSurvives(text: string, old_: string, p: string, s: string, j: nat) returns (k: nat)
    requires old_ != "" && s != "" && Apart(s, p) && p != ""
    requires OccursAt(s, ReplaceAll(text, old_, p), j)
    ensures OccursAt(s, text, k)
    decreases |text|
  {
    var r := ReplaceAll(text, old_, p);
    if |text| < |old_| {
      k := j;
    } else if old_ <= text {
      var rest, t := ReplaceAll(text[|old_|..], old_, p), text[|old_|..];
      if j < |p| { OccurrenceMeetsPlaceholder(p, rest, s, j); }
      OccursBehind(p, rest, s, j - |p|);
      k := OccurrenceSurvives(t, old_, p, s, j - |p|);
      assert text == old_ + t;
      OccursBehind(old_, t, s, k);
      k := k + |old_|;
    } else if j == 0 {
      assert r[0..|s|] == r[..|s|] == s && s[0..] == s;
      PrefixSurvives(text, old_, p, s, 0);
      assert text[0..|s|] == text[..|s|] == s;
      k := 0;
    } else {
      var rest, t := ReplaceAll(text[1..], old_, p), text[1..];
      OccursBehind([text[0]], rest, s, j - 1);
      k := OccurrenceSurvives(t, old_, p, s, j - 1);
      assert text == [text[0]] + t;
      OccursBehind([text[0]], t, s, k);
      k := k + 1;
    }
  }

  lemma ReplacingCreatesNothing(text: string, old_: string, p: string, s: string)
    requires old_ != "" && s != "" && Apart(s, p) && p != "" && !Occurs(s, text)
    ensures !Occurs(s, ReplaceAll(text, old_, p))
  {
    var r := ReplaceAll(text, old_, p);
    forall j: nat | j <= |r| ensures !OccursAt(s, r, j) {
      if OccursAt(s, r, j) {
        var k := OccurrenceSurvives(text, old_, p, s, j);
        assert false;
      }
    }
  }

  /** A safe text is gone once it has itself been replaced. */
  lemma {:induction false} ReplacedIsGone(text: string, s: string, p: string, j: nat)
    requires s != "" && Apart(s, p) && p != ""
    ensures !OccursAt(s, ReplaceAll(text, s, p), j)
    decreases |text|
  {
    var r := ReplaceAll(text, s, p);
    if OccursAt(s, r, j) && |text| >= |s| {
      if s <= text {
        var rest := ReplaceAll(text[|s|..], s, p);
        if j < |p| { OccurrenceMeetsPlaceholder(p, rest, s, j); }
        OccursBehind(p, rest, s, j - |p|);
        ReplacedIsGone(text[|s|..], s, p, j - |p|);
      } else if j == 0 {
        assert r[0..|s|] == r[..|s|] == s && s[0..] == s;
        PrefixSurvives(text, s, p, s, 0);
      } else {
        OccursBehind([text[0]], ReplaceAll(text[1..], s, p), s, j - 1);
        ReplacedIsGone(text[1..], s, p, j - 1);
      }
    }
  }

  /**
   Redact is complete for every secret that keeps apart from the placeholder, whatever the other
   secrets are: none of it is left anywhere, so no later replacement re-creates an earlier secret.
   */
  lemma {:induction false} RedactIsComplete(text: string, secrets: seq<string>, sec: string)
    requires Safe(sec) && sec in secrets
    ensures !Occurs(sec, Redacted(text, secrets))
  {
    var init, last := secrets[..|secrets| - 1], secrets[|secrets| - 1];
    var before := Redacted(text, init);
    if last == sec {
      forall j: nat ensures !OccursAt(sec, ReplaceAll(before, sec, PLACEHOLDER), j) {
        ReplacedIsGone(before, sec, PLACEHOLDER, j);
      }
    } else {
      assert secrets == init + [last];
      RedactIsComplete(text, init, sec);
      if last != "" { ReplacingCreatesNothing(before, last, PLACEHOLDER, sec); }
    }
  }

  lemma {:induction false} ReplaceNothing(text: string, old_: string, new_: string)
    requires old_ != "" && !Occurs(old_, text)
    ensures ReplaceAll(text, old_, new_) == text
    decreases |text|
  {
    if |text| >= |old_| {
      assert !OccursAt(old_, text, 0);
      assert text[0..|old_|] == text[..|old_|];
      forall k: nat | k <= |text[1..]| ensures !OccursAt(old_, text[1..], k) {
        assert !OccursAt(old_, text, k + 1);
        if k + |old_| <= |text[1..]| { assert text[1..][k..k + |old_|] == text[k + 1..k + 1 + |old_|]; }
      }
      ReplaceNothing(text[1..], old_, new_);
    }
  }

  /** Text without secrets is not touched. */
  lemma {:induction false} RedactKeepsCleanText(text: string, secrets: seq<string>)
    requires forall i :: 0 <= i < |secrets| && secrets[i] != "" ==> !Occurs(secrets[i], text)
    ensures Redacted(text, secrets) == text
  {
    if secrets != [] {
      RedactKeepsCleanText(text, secrets[..|secrets| - 1]);
      if secrets[|secrets| - 1] != "" { ReplaceNothing(text, secrets[|secrets| - 1], PLACEHOLDER); }
    }
  }

  // ------------------------------------------------------------------ the exact condition

  /** n times '#'. */
  function Hashes(n: nat): (r: string)
    ensures |r| == n && forall i :: 0 <= i < n ==> r[i] == '#'
  {
    seq(n, _ => '#')
  }

  /** A text long enough to occur in x + Marker(n) + w only where it is put; no character of it is in the placeholder. */
  function Marker(n: nat): (r: string)
    ensures |r| == n + 1 && forall c :: c in r ==> c !in PLACEHOLDER
  {
    Hashes(n) + "$"
  }

  lemma OccursChar(needle: string, text: string, j: nat, k: nat)
    ensures OccursAt(needle, text, j) && k < |needle| ==> j + k < |text| && text[j + k] == needle[k]
  {
    if j + |needle| <= |text| && k < |needle| { assert text[j..j + |needle|][k] == text[j + k]; }
  }

  /** The marker does not occur before the place it is put. */
  lemma MarkerStandsAlone(x: string, n: nat, w: string, j: nat)
    requires j < |x| <= n
    ensures !OccursAt(Marker(n), x + Marker(n) + w, j)
  {
    OccursChar(Marker(n), x + Marker(n) + w, j, n);
    assert (x + Marker(n) + w)[j + n] == Marker(n)[j + n - |x|];
  }

  /** Replacing the marker puts the placeholder between x and w. */
  lemma {:induction false} MarkerIsReplaced(x: string, n: nat, w: string)
    requires |x| <= n && |w| <= n
    ensures ReplaceAll(x + Marker(n) + w, Marker(n), PLACEHOLDER) == x + PLACEHOLDER + w
    decreases |x|
  {
    var m := Marker(n);
    var s := x + m + w;
    if x == "" {
      assert s == m + w && s[|m|..] == w && s[..|m|] == m;
      assert ReplaceAll(w, m, PLACEHOLDER) == w;
      assert x + PLACEHOLDER + w == PLACEHOLDER + w;
    } else {
      MarkerStandsAlone(x, n, w, 0);
      assert s[0..|m|] == s[..|m|];
      TailOfJoin(x, m, w);
      MarkerIsReplaced(x[1..], n, w);
      assert x + PLACEHOLDER + w == [x[0]] + (x[1..] + PLACEHOLDER + w);
    }
  }

  /**
   The placeholder between x and w completes the secret x + y + w. A marker in its place hides the
   secret until the replacement of the marker writes the placeholder.
   */
  lemma OverlapSurvives(sec: string, x: string, y: string, w: string, at: nat) returns (text: string, m: string)
    requires OverlapsAt(sec, PLACEHOLDER, x, y, w, at)
    ensures Occurs(sec, Redacted(text, [sec, m]))
  {
    m := Marker(|x| + |w|);
    text := x + m + w;
    MarkerHas(|x| + |w|, y[0]);
    HiddenBehindMarker(x, y, w, m);
    MarkerIsReplaced(x, |x| + |w|, w);
    ShownAgain(text, sec, m, x + PLACEHOLDER + w, at);
  }

  lemma MarkerHas(n: nat, c: char)
    requires c in PLACEHOLDER
    ensures c !in Marker(n)
  {
  }

  lemma ShownAgain(text: string, sec: string, m: string, r: string, at: nat)
    requires sec != "" && m != "" && !Occurs(sec, text)
    requires ReplaceAll(text, m, PLACEHOLDER) == r && OccursAt(sec, r, at)
    ensures Occurs(sec, Redacted(text, [sec, m]))
  {
    RedactedTwice(text, sec, m);
  }

  lemma HiddenBehindMarker(x: string, y: string, w: string, m: string)
    requires y != "" && y[0] !in m
    ensures !Occurs(x + y + w, x + m + w)
  {
    var sec, text := x + y + w, x + m + w;
    forall j: nat | j <= |text| ensures !OccursAt(sec, text, j) {
      OccursChar(sec, text, j, |x|);
      assert sec[|x|] == y[0];
      assert j + |sec| <= |text| ==> text[j + |x|] == m[j] && m[j] in m;
    }
  }

  lemma RedactedTwice(text: string, sec: string, m: string)
    requires sec != "" && m != "" && !Occurs(sec, text)
    ensures Redacted(text, [sec, m]) == ReplaceAll(text, m, PLACEHOLDER)
  {
    assert [sec, m][..1] == [sec] && [sec][..0] == [];
    ReplaceNothing(text, sec, PLACEHOLDER);
    assert Redacted(text, [sec][..0]) == text;
  }

  /** How a text can fail to keep apart from p: some y of it, met in p, completes it between x and w. */
  ghost predicate OverlapsAt(sec: string, p: string, x: string, y: string, w: string, at: nat) {
    sec == x + y + w && y != "" && y[0] in p && OccursAt(sec, x + p + w, at)
  }

  lemma OverlapInside(sec: string, p: string, i: nat)
    requires sec != "" && OccursAt(sec, p, i)
    ensures OverlapsAt(sec, p, "", sec, "", i)
  {
    OccursChar(sec, p, i, 0);
    assert "" + p + "" == p && sec == "" + sec + "";
  }

  lemma OverlapAround(sec: string, p: string, i: nat)
    requires p != "" && OccursAt(p, sec, i)
    ensures OverlapsAt(sec, p, sec[..i], p, sec[i + |p|..], 0)
  {
    CutTwice(sec, i, i + |p|);
    assert sec[0..|sec|] == sec;
  }

  lemma OverlapAtEnd(sec: string, p: string, k: nat)
    requires 0 < k <= |sec| && k <= |p| && sec[..k] == p[|p| - k..]
    ensures OverlapsAt(sec, p, "", sec[..k], sec[k..], |p| - k)
  {
    var t := "" + p + sec[k..];
    assert sec[..k][0] == p[|p| - k..][0] == p[|p| - k];
    assert t[|p| - k..|p| - k + |sec|] == p[|p| - k..] + sec[k..];
  }

  lemma OverlapAtStart(sec: string, p: string, k: nat)
    requires 0 < k <= |sec| && k <= |p| && sec[|sec| - k..] == p[..k]
    ensures OverlapsAt(sec, p, sec[..|sec| - k], sec[|sec| - k..], "", 0)
  {
    var x := sec[..|sec| - k];
    assert sec[|sec| - k..][0] == p[..k][0] == p[0];
    assert (x + p + "")[0..|sec|] == x + p[..k];
  }

  /** Texts that do not keep apart overlap in one of these four ways. */
  lemma NotApartOverlaps(sec: string, p: string) returns (x: string, y: string, w: string, at: nat)
    requires sec != "" && p != "" && !Apart(sec, p)
    ensures OverlapsAt(sec, p, x, y, w, at)
  {
    if Occurs(sec, p) {
      var i: nat :| i <= |p| && OccursAt(sec, p, i);
      OverlapInside(sec, p, i);
      x, y, w, at := "", sec, "", i;
    } else if Occurs(p, sec) {
      var i: nat :| i <= |sec| && OccursAt(p, sec, i);
      OverlapAround(sec, p, i);
      x, y, w, at := sec[..i], p, sec[i + |p|..], 0;
    } else if exists k | 0 < k <= |sec| && k <= |p| :: sec[..k] == p[|p| - k..] {
      var k :| 0 < k <= |sec| && k <= |p| && sec[..k] == p[|p| - k..];
      OverlapAtEnd(sec, p, k);
      x, y, w, at := "", sec[..k], sec[k..], |p| - k;
    } else {
      var k :| 0 < k <= |sec| && k <= |p| && sec[|sec| - k..] == p[..k];
      OverlapAtStart(sec, p, k);
      x, y, w, at := sec[..|sec| - k], sec[|sec| - k..], "", 0;
    }
  }

  /** Whatever the text and the other secrets, this secret is gone once it has been redacted. */
  ghost predicate AlwaysRedacted(sec: string) {
    forall text: string, secrets: seq<string> :: sec in secrets ==> !Occurs(sec, Redacted(text, secrets))
  }

  /**
   The exact condition: a secret is gone from every text under every list of secrets that holds it if
   and only if it keeps apart from the placeholder.
   */
  lemma SafeMeansAlwaysRedacted(sec: string)
    requires sec != ""
    ensures AlwaysRedacted(sec) <==> Safe(sec)
  {
    if Safe(sec) {
      forall text: string, secrets: seq<string> | sec in secrets ensures !Occurs(sec, Redacted(text, secrets)) {
        RedactIsComplete(text, secrets, sec);
      }
    } else {
      var x, y, w, at := NotApartOverlaps(sec, PLACEHOLDER);
      var text, m := OverlapSurvives(sec, x, y, w, at);
      assert sec in [sec, m];
    }
  }

  /** A secret contained in the placeholder needs no second one to survive: redacting it writes it again. */
  lemma SecretInsidePlaceholderLeaks(sec: string)
    requires sec != "" && Occurs(sec, PLACEHOLDER)
    ensures Occurs(sec, Redacted(sec, [sec]))
  {
    assert sec[|sec|..] == "" && [sec][..0] == [];
    var r := ReplaceAll(sec, sec, PLACEHOLDER);
    assert ReplaceAll("", sec, PLACEHOLDER) == "";
    assert r == PLACEHOLDER + "" == PLACEHOLDER;
    assert Redacted(sec, [sec][..0]) == sec;
    assert Redacted(sec, [sec]) == PLACEHOLDER;
  }
}
