/** The matcher of user/grep.c against the languages of regular expressions. */
module Regex {

  datatype Re = Eps | Any | Lit(c: char) | Seq(left: Re, right: Re) | Star(body: Re)

  /** Word `w` is in the language of `r`. */
  ghost predicate In(r: Re, w: string)
    decreases r, |w|
  {
    match r
    case Eps => w == []
    case Any => |w| == 1
    case Lit(c) => w == [c]
    case Seq(a, b) => exists k | 0 <= k <= |w| :: In(a, w[..k]) && In(b, w[k..])
    case Star(a) => w == [] || exists k | 0 < k <= |w| :: In(a, w[..k]) && In(r, w[k..])
  }

  /** A pattern: an expression and whether it must end where the text ends. */
  datatype Pattern = Pattern(re: Re, atEnd: bool)

  function Sym(c: char): Re {
    if c == '.' then Any else Lit(c)
  }

  /** What the notation with `.`, `*` and a final `$` stands for. */
  function Parse(p: string): Pattern {
    if p == "" then Pattern(Eps, false)
    else if |p| >= 2 && p[1] == '*' then
      var rest := Parse(p[2..]);
      Pattern(Seq(Star(Sym(p[0])), rest.re), rest.atEnd)
    else if p == "$" then Pattern(Eps, true)
    else
      var rest := Parse(p[1..]);
      Pattern(Seq(Sym(p[0]), rest.re), rest.atEnd)
  }

  /** A prefix of `w` matches; the whole of it, if the pattern ends in `$`. */
  ghost predicate MatchesHere(p: string, w: string) {
    exists j | 0 <= j <= |w| :: In(Parse(p).re, w[..j]) && (Parse(p).atEnd ==> j == |w|)
  }

  /** A substring of `w` matches; one that starts at the beginning, if the pattern starts with `^`. */
  ghost predicate Matches(p: string, w: string) {
    if |p| > 0 && p[0] == '^' then MatchesHere(p[1..], w)
    else exists i | 0 <= i <= |w| :: MatchesHere(p, w[i..])
  }

  predicate Accepts(c: char, x: char) {
    c == '.' || x == c
  }

  ghost predicate AllAccepted(c: char, w: string) {
    forall i | 0 <= i < |w| :: Accepts(c, w[i])
  }

  // ---------------------------------------------------------------- languages of the pieces

  lemma SymLanguage(c: char, w: string)
    ensures In(Sym(c), w) <==> |w| == 1 && Accepts(c, w[0])
  {
  }

  lemma {:induction false} StarLanguage(c: char, w: string)
    ensures In(Star(Sym(c)), w) <==> AllAccepted(c, w)
    decreases |w|
  {
    if w != [] {
      StarLanguage(c, w[1..]);
      SymLanguage(c, w[..1]);
      forall k | 0 < k <= |w| && In(Sym(c), w[..k]) ensures k == 1 { SymLanguage(c, w[..k]); }
      if AllAccepted(c, w) {
        assert In(Sym(c), w[..1]) && In(Star(Sym(c)), w[1..]);
      }
    }
  }

  lemma OneHere(p: string, w: string)
    requires p != "" && !(|p| >= 2 && p[1] == '*') && p != "$"
    ensures MatchesHere(p, w) <==> |w| > 0 && Accepts(p[0], w[0]) && MatchesHere(p[1..], w[1..])
  {
    var q := Parse(p[1..]);
    if MatchesHere(p, w) {
      var j :| 0 <= j <= |w| && In(Parse(p).re, w[..j]) && (q.atEnd ==> j == |w|);
      var k :| 0 <= k <= j && In(Sym(p[0]), w[..j][..k]) && In(q.re, w[..j][k..]);
      SymLanguage(p[0], w[..j][..k]);
      assert w[..j][1..] == w[1..][..j - 1];
    }
    if |w| > 0 && Accepts(p[0], w[0]) && MatchesHere(p[1..], w[1..]) {
      var j :| 0 <= j <= |w| - 1 && In(q.re, w[1..][..j]) && (q.atEnd ==> j == |w| - 1);
      assert w[..j + 1][..1] == w[..1] && w[..j + 1][1..] == w[1..][..j];
      SymLanguage(p[0], w[..1]);
      assert In(Parse(p).re, w[..j + 1]);
    }
  }

  lemma StarHere(p: string, w: string)
    requires |p| >= 2 && p[1] == '*'
    ensures MatchesHere(p, w) <==> exists k | 0 <= k <= |w| :: AllAccepted(p[0], w[..k]) && MatchesHere(p[2..], w[k..])
  {
    var q := Parse(p[2..]);
    if MatchesHere(p, w) {
      var j :| 0 <= j <= |w| && In(Parse(p).re, w[..j]) && (q.atEnd ==> j == |w|);
      var k :| 0 <= k <= j && In(Star(Sym(p[0])), w[..j][..k]) && In(q.re, w[..j][k..]);
      StarLanguage(p[0], w[..j][..k]);
      assert w[..j][..k] == w[..k] && w[..j][k..] == w[k..][..j - k];
      assert AllAccepted(p[0], w[..k]) && MatchesHere(p[2..], w[k..]);
    }
    if k :| 0 <= k <= |w| && AllAccepted(p[0], w[..k]) && MatchesHere(p[2..], w[k..]) {
      var j :| 0 <= j <= |w| - k && In(q.re, w[k..][..j]) && (q.atEnd ==> j == |w| - k);
      assert w[..k + j][..k] == w[..k] && w[..k + j][k..] == w[k..][..j];
      StarLanguage(p[0], w[..k]);
      assert In(Parse(p).re, w[..k + j]);
    }
  }

  // ---------------------------------------------------------------- the matcher

  method MatchHere(re: string, text: string) returns (r: bool)
    ensures r <==> MatchesHere(re, text)
    decreases |re|, 1
  {
    if re == "" {
      assert In(Parse(re).re, text[..0]);
      return true;
    }
    if |re| >= 2 && re[1] == '*' {
      r := MatchStar(re[0], re[2..], text);
      StarHere(re, text);
      return;
    }
    if re[0] == '$' && |re| == 1 {
      assert re == "$";
      assert In(Eps, text[..0]);
      return text == "";
    }
    OneHere(re, text);
    if text != "" && (re[0] == '.' || re[0] == text[0]) {
      r := MatchHere(re[1..], text[1..]);
      return;
    }
    return false;
  }

  method MatchStar(c: char, re: string, text: string) returns (r: bool)
    ensures r <==> exists k | 0 <= k <= |text| :: AllAccepted(c, text[..k]) && MatchesHere(re, text[k..])
    decreases |re|, 2
  {
    var t := 0;
    while true
      invariant 0 <= t <= |text| && AllAccepted(c, text[..t])
      invariant forall k | 0 <= k < t :: !MatchesHere(re, text[k..])
      decreases |text| - t
    {
      r := MatchHere(re, text[t..]);
      if r { return; }
      if !(t < |text| && (text[t] == c || c == '.')) { break; }
      t := t + 1;
    }
    forall k | t < k <= |text| ensures !AllAccepted(c, text[..k]) {
      assert text[..k][t] == text[t];
    }
  }

  // The matcher answers yes exactly when some substring, anchored as the pattern asks, is in its language.
  method Match(re: string, text: string) returns (r: bool)
    ensures r <==> Matches(re, text)
  {
    if re != "" && re[0] == '^' {
      r := MatchHere(re[1..], text);
      return;
    }
    var t := 0;
    while true
      invariant 0 <= t <= |text|
      invariant forall k | 0 <= k < t :: !MatchesHere(re, text[k..])
      decreases |text| - t
    {
      r := MatchHere(re, text[t..]);
      if r { return; }
      if t == |text| { break; }
      t := t + 1;
    }
  }
}
