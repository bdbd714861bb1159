/** Tokens of a command line (`gettoken` and `peek` of user/sh.c), and the text that shows a list of tokens. */
module ShLexer {
  import opened Common
  import opened ShGrammar
  import opened ShNatural

  predicate Space(c: char) {
    c == ' ' || c == '\t' || c == '\r' || c == '\n' || c == '\U{0B}'
  }

  predicate Symbol(c: char) {
    c == '<' || c == '|' || c == '>' || c == '&' || c == ';' || c == '(' || c == ')'
  }

  predicate Plain(c: char) {
    !Space(c) && !Symbol(c) && c != NUL
  }

  /** A word in the text, from `q` to before `eq`. */
  datatype Span = Span(q: nat, eq: nat)

  /** The first position from `p` on that is not white space. */
  function Skip(t: string, p: nat): (r: nat)
    requires p <= |t|
    ensures p <= r <= |t| && (r < |t| ==> !Space(t[r]))
    decreases |t| - p
  {
    if p < |t| && Space(t[p]) then Skip(t, p + 1) else p
  }

  /** The first position from `p` on that is not part of a word. */
  function WordEnd(t: string, p: nat): (r: nat)
    requires p <= |t|
    ensures p <= r <= |t| && (r < |t| ==> Space(t[r]) || Symbol(t[r]))
    decreases |t| - p
  {
    if p < |t| && !Space(t[p]) && !Symbol(t[p]) then WordEnd(t, p + 1) else p
  }

  /** The token that starts at `p`, and where it ends. */
  function Scan(t: string, p: nat): (r: (Token<Span>, nat))
    requires p < |t| && !Space(t[p])
    ensures p < r.1 <= |t|
  {
    if t[p] == '>' then
      if p + 1 < |t| && t[p + 1] == '>' then (Sym('+'), p + 2) else (Sym('>'), p + 1)
    else if Symbol(t[p]) then (Sym(t[p]), p + 1)
    else (Word(Span(p, WordEnd(t, p))), WordEnd(t, p))
  }

  function Lex(t: string, p: nat): seq<Token<Span>>
    requires p <= |t|
    decreases |t| - p
  {
    var q := Skip(t, p);
    if q == |t| then [] else [Scan(t, q).0] + Lex(t, Scan(t, q).1)
  }

  lemma SkipTwice(t: string, p: nat)
    requires p <= |t|
    ensures Skip(t, Skip(t, p)) == Skip(t, p)
  {
  }

  // White space before a token does not matter.
  lemma LexSkips(t: string, p: nat)
    requires p <= |t|
    ensures Lex(t, Skip(t, p)) == Lex(t, p)
  {
    SkipTwice(t, p);
  }

  // ---------------------------------------------------------------- what the tokens of a text are

  /** The characters that separate tokens, and those that are tokens or the start of one. */
  const WHITE: string := " \t\r\n\U{0B}"
  const SYMBOLS: string := "<|>&;()"

  ghost predicate Blank(t: string, a: nat, b: nat)
    requires b <= |t|
  {
    forall i | a <= i < b :: t[i] in WHITE
  }

  /** Behind white space from `p` on, token `k` goes from `q` to before `e`. */
  ghost predicate TokenAt(t: string, p: nat, q: nat, e: nat, k: Token<Span>) {
    && p <= q < e <= |t| && Blank(t, p, q)
    && match k
       case Word(s) =>
         && s == Span(q, e) && (forall i | q <= i < e :: t[i] !in WHITE && t[i] !in SYMBOLS)
         && (e < |t| ==> t[e] in WHITE || t[e] in SYMBOLS)
       case Sym(c) =>
         if c == '+' then t[q..e] == ">>"
         else t[q..e] == [c] && c in SYMBOLS && (c == '>' && e < |t| ==> t[e] != '>')
  }

  /** From `p` on the text is these tokens, with white space around them. */
  ghost predicate LexedAs(t: string, p: nat, ts: seq<Token<Span>>)
    requires p <= |t|
    decreases |ts|
  {
    if ts == [] then Blank(t, p, |t|)
    else exists q: nat, e: nat :: TokenAt(t, p, q, e, ts[0]) && LexedAs(t, e, ts[1..])
  }

  lemma CharSets(c: char)
    ensures Space(c) <==> c in WHITE
    ensures Symbol(c) <==> c in SYMBOLS
  {
  }

  lemma {:induction false} SkipIs(t: string, p: nat, q: nat)
    requires p <= q <= |t| && Blank(t, p, q) && (q < |t| ==> t[q] !in WHITE)
    ensures Skip(t, p) == q
    decreases q - p
  {
    if p < |t| { CharSets(t[p]); }
    if p < q { SkipIs(t, p + 1, q); }
  }

  lemma {:induction false} SkipBlank(t: string, p: nat)
    requires p <= |t|
    ensures Blank(t, p, Skip(t, p)) && (Skip(t, p) < |t| ==> t[Skip(t, p)] !in WHITE)
    decreases |t| - p
  {
    if p < |t| {
      CharSets(t[p]);
      if Space(t[p]) { SkipBlank(t, p + 1); }
    }
  }

  lemma {:induction false} WordEndIs(t: string, p: nat, e: nat)
    requires p <= e <= |t| && (forall i | p <= i < e :: t[i] !in WHITE && t[i] !in SYMBOLS)
    requires e < |t| ==> t[e] in WHITE || t[e] in SYMBOLS
    ensures WordEnd(t, p) == e
    decreases e - p
  {
    if p < |t| { CharSets(t[p]); }
    if p < e { WordEndIs(t, p + 1, e); }
  }

  lemma {:induction false} WordEndBlank(t: string, p: nat)
    requires p <= |t|
    ensures forall i | p <= i < WordEnd(t, p) :: t[i] !in WHITE && t[i] !in SYMBOLS
    ensures WordEnd(t, p) < |t| ==> t[WordEnd(t, p)] in WHITE || t[WordEnd(t, p)] in SYMBOLS
    decreases |t| - p
  {
    if p < |t| {
      CharSets(t[p]);
      if !Space(t[p]) && !Symbol(t[p]) { WordEndBlank(t, p + 1); }
    }
  }

  lemma ScanIs(t: string, p: nat, q: nat, e: nat, k: Token<Span>)
    requires TokenAt(t, p, q, e, k)
    ensures Skip(t, p) == q && !Space(t[q]) && Scan(t, q) == (k, e)
  {
    CharSets(t[q]);
    if k.Word? {
      WordEndIs(t, q, e);
    } else {
      assert t[q..e][0] == t[q];
      if k.c == '+' { assert t[q..e][1] == t[q + 1]; }
    }
    SkipIs(t, p, q);
  }

  lemma ScanFits(t: string, p: nat, q: nat)
    requires p <= |t| && q == Skip(t, p) < |t|
    ensures TokenAt(t, p, q, Scan(t, q).1, Scan(t, q).0)
  {
    SkipBlank(t, p);
    CharSets(t[q]);
    WordEndBlank(t, q);
  }

  // The tokens of a text, by what they look like: the lexer gives these and no others.
  lemma {:induction false} LexedExactly(t: string, p: nat, ts: seq<Token<Span>>)
    requires p <= |t|
    ensures LexedAs(t, p, ts) <==> ts == Lex(t, p)
    decreases |ts|
  {
    SkipBlank(t, p);
    var q := Skip(t, p);
    if ts == [] {
      if LexedAs(t, p, ts) { SkipIs(t, p, |t|); }
    } else {
      if LexedAs(t, p, ts) {
        var q': nat, e: nat :| TokenAt(t, p, q', e, ts[0]) && LexedAs(t, e, ts[1..]);
        ScanIs(t, p, q', e, ts[0]);
        LexedExactly(t, e, ts[1..]);
        assert ts == [ts[0]] + ts[1..];
      }
      if ts == Lex(t, p) {
        var e := Scan(t, q).1;
        ScanFits(t, p, q);
        assert ts[0] == Scan(t, q).0 && ts[1..] == Lex(t, e);
        LexedExactly(t, e, ts[1..]);
        assert TokenAt(t, p, q, e, ts[0]) && LexedAs(t, e, ts[1..]);
      }
    }
  }

  // ---------------------------------------------------------------- text of tokens

  function WordText(t: string, s: Span): string {
    if s.q <= s.eq <= |t| then t[s.q..s.eq] else ""
  }

  function Texts(t: string): Span -> string {
    (s: Span) => WordText(t, s)
  }

  function TokenText(k: Token<string>): string {
    match k
    case Sym(c) => if c == '+' then ">>" else [c]
    case Word(w) => w
  }

  predicate GoodWord(w: string) {
    w != "" && forall i | 0 <= i < |w| :: Plain(w[i])
  }

  predicate GoodToken(k: Token<string>) {
    match k
    case Sym(c) => Symbol(c) || c == '+'
    case Word(w) => GoodWord(w)
  }

  /** Every token followed by a space. */
  function ShowTokens(ts: seq<Token<string>>): string {
    if ts == [] then "" else TokenText(ts[0]) + " " + ShowTokens(ts[1..])
  }

  lemma {:induction false} WordEndAt(t: string, p: nat, e: nat)
    requires p <= e < |t| && (forall i | p <= i < e :: !Space(t[i]) && !Symbol(t[i])) && (Space(t[e]) || Symbol(t[e]))
    ensures WordEnd(t, p) == e
    decreases e - p
  {
    if p < e { WordEndAt(t, p + 1, e); }
  }

  // The first token of a text that shows tokens.
  lemma ScanShown(t: string, p: nat, k: Token<string>, rest: string)
    requires p <= |t| && GoodToken(k) && t[p..] == TokenText(k) + " " + rest
    ensures p < |t| && !Space(t[p])
    ensures Scan(t, p).1 == p + |TokenText(k)| && MapToken(Texts(t), Scan(t, p).0) == k
    ensures p + |TokenText(k)| + 1 <= |t| && t[p + |TokenText(k)|] == ' ' && t[p + |TokenText(k)| + 1..] == rest
  {
    var x := TokenText(k);
    var e := p + |x|;
    assert forall i | 0 <= i < |t| - p :: t[p..][i] == t[p + i];
    assert t[p..][|x|] == ' ' && forall i | 0 <= i < |x| :: t[p + i] == x[i];
    assert t[e + 1..] == t[p..][|x| + 1..] == rest;
    if k.Word? {
      WordEndAt(t, p, e);
      assert t[p..e] == x;
    }
  }

  lemma LexStep(t: string, p: nat)
    requires p < |t| && !Space(t[p])
    ensures Lex(t, p) == [Scan(t, p).0] + Lex(t, Scan(t, p).1)
  {
  }

  lemma MapCons(f: Span -> string, k: Token<Span>, ts: seq<Token<Span>>)
    ensures MapTokens(f, [k] + ts) == [MapToken(f, k)] + MapTokens(f, ts)
  {
  }

  lemma LexAfterSpace(t: string, e: nat)
    requires e < |t| && Space(t[e])
    ensures Lex(t, e) == Lex(t, e + 1)
  {
    assert Skip(t, e) == Skip(t, e + 1);
  }

  lemma LexCons(t: string, p: nat, e: nat, k: Token<string>, rest: seq<Token<string>>)
    requires p < |t| && !Space(t[p]) && Scan(t, p).1 == e < |t| && Space(t[e]) && MapToken(Texts(t), Scan(t, p).0) == k
    requires MapTokens(Texts(t), Lex(t, e + 1)) == rest
    ensures MapTokens(Texts(t), Lex(t, p)) == [k] + rest
  {
    LexStep(t, p);
    LexAfterSpace(t, e);
    MapCons(Texts(t), Scan(t, p).0, Lex(t, e));
  }

  lemma SplitFirst(ts: seq<Token<string>>)
    requires ts != []
    ensures [ts[0]] + ts[1..] == ts
  {
  }

  predicate AllGood(ts: seq<Token<string>>) {
    forall i | 0 <= i < |ts| :: GoodToken(ts[i])
  }

  /** The text from `p` on shows the tokens. */
  predicate Shows(t: string, p: nat, ts: seq<Token<string>>) {
    p <= |t| && t[p..] == ShowTokens(ts) && AllGood(ts)
  }

  /** The token at `p` is `k`, a space follows it, and after that comes `next`. */
  ghost predicate FirstIs(t: string, p: nat, k: Token<string>, next: nat) {
    && p < |t| && !Space(t[p]) && Scan(t, p).1 + 1 == next <= |t| && Space(t[next - 1])
    && MapToken(Texts(t), Scan(t, p).0) == k
  }

  lemma ShowsRest(t: string, p: nat, ts: seq<Token<string>>, next: nat)
    requires Shows(t, p, ts) && ts != [] && next == p + |TokenText(ts[0])| + 1
    ensures FirstIs(t, p, ts[0], next) && Shows(t, next, ts[1..])
  {
    ScanShown(t, p, ts[0], ShowTokens(ts[1..]));
  }

  ghost predicate Reads(t: string, p: nat, ts: seq<Token<string>>) {
    p <= |t| && MapTokens(Texts(t), Lex(t, p)) == ts
  }

  lemma ReadsMore(t: string, p: nat, ts: seq<Token<string>>, next: nat)
    requires ts != [] && FirstIs(t, p, ts[0], next) && Reads(t, next, ts[1..])
    ensures Reads(t, p, ts)
  {
    LexCons(t, p, next - 1, ts[0], ts[1..]);
    SplitFirst(ts);
  }

  lemma ReadsNothing(t: string, p: nat)
    requires Shows(t, p, [])
    ensures Reads(t, p, [])
  {
    assert p == |t|;
  }

  // Reading the shown text gives the tokens.
  lemma {:induction false} LexShown(t: string, p: nat, ts: seq<Token<string>>)
    requires Shows(t, p, ts)
    ensures Reads(t, p, ts)
    decreases |ts|
  {
    if ts == [] {
      ReadsNothing(t, p);
    } else {
      var next := p + |TokenText(ts[0])| + 1;
      ShowsRest(t, p, ts, next);
      LexShown(t, next, ts[1..]);
      ReadsMore(t, p, ts, next);
    }
  }
}
