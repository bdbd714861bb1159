/** `nulterminate` of user/sh.c: after parsing, a NUL is written behind every word, in place. */
module NulTerminate {
  import opened Common
  import opened ShGrammar
  import opened ShNatural
  import opened ShLexer
  import opened Shell

  /** A maximal run of characters that are neither white space nor symbols. */
  ghost predicate IsWord(t: string, s: Span) {
    && s.q < s.eq <= |t| && (forall i | s.q <= i < s.eq :: !Space(t[i]) && !Symbol(t[i]))
    && (s.eq < |t| ==> Space(t[s.eq]) || Symbol(t[s.eq]))
  }

  ghost predicate Everywhere(c: Cmd<Span>, t: string) {
    match c
    case Exec(args) => forall i | 0 <= i < |args| :: IsWord(t, args[i])
    case Redir(x, r) => Everywhere(x, t) && IsWord(t, r.file)
    case Pipe(l, r) => Everywhere(l, t) && Everywhere(r, t)
    case List(l, r) => Everywhere(l, t) && Everywhere(r, t)
    case Back(x) => Everywhere(x, t)
  }

  // ---------------------------------------------------------------- the words of a parsed command are words of the tex

  lemma {:induction false} WordEndIsWord(t: string, p: nat)
    requires p < |t| && !Space(t[p]) && !Symbol(t[p])
    ensures IsWord(t, Span(p, WordEnd(t, p)))
    decreases |t| - p
  {
    if p + 1 < |t| && !Space(t[p + 1]) && !Symbol(t[p + 1]) { WordEndIsWord(t, p + 1); }
  }

  lemma {:induction false} LexWords(t: string, p: nat)
    requires p <= |t|
    ensures forall i | 0 <= i < |Lex(t, p)| :: Lex(t, p)[i].Word? ==> IsWord(t, Lex(t, p)[i].w)
    decreases |t| - p
  {
    var q := Skip(t, p);
    if q < |t| {
      if !Symbol(t[q]) { WordEndIsWord(t, q); }
      LexWords(t, Scan(t, q).1);
    }
  }

  /** The identity on words of the text, and on nothing else. */
  ghost function Fix(t: string): Span -> Span {
    (s: Span) => if IsWord(t, s) then s else Span(s.q + 1, s.eq)
  }

  lemma {:induction false} FixedWords(t: string, c: Cmd<Span>)
    requires MapCmd(Fix(t), c) == c
    ensures Everywhere(c, t)
  {
    match c
    case Exec(args) =>
      forall i | 0 <= i < |args| ensures IsWord(t, args[i]) {
        assert MapWords(Fix(t), args)[i] == args[i];
      }
    case Redir(x, r) => FixedWords(t, x);
    case Pipe(l, r) =>
      FixedWords(t, l);
      FixedWords(t, r);
    case List(l, r) =>
      FixedWords(t, l);
      FixedWords(t, r);
    case Back(x) => FixedWords(t, x);
  }

  // The grammar neither makes nor changes words, so all words of the result are words of the text.
  lemma ParsedWords(t: string)
    ensures var r := ParseAll(Lex(t, 0)); r.Got? ==> Everywhere(r.v, t)
  {
    var ts := Lex(t, 0);
    LexWords(t, 0);
    assert MapTokens(Fix(t), ts) == ts;
    ParseNatural(Fix(t), ts);
    var r := ParseAll(ts);
    if r.Got? { FixedWords(t, r.v); }
  }

  // ---------------------------------------------------------------- writing the NULs

  ghost function EndsOf(args: seq<Span>, k: nat): set<nat>
    requires k <= |args|
  {
    if k == 0 then {} else EndsOf(args, k - 1) + {args[k - 1].eq}
  }

  ghost function Ends(c: Cmd<Span>): set<nat> {
    match c
    case Exec(args) => EndsOf(args, |args|)
    case Redir(x, r) => Ends(x) + {r.file.eq}
    case Pipe(l, r) => Ends(l) + Ends(r)
    case List(l, r) => Ends(l) + Ends(r)
    case Back(x) => Ends(x)
  }

  ghost predicate Cut(before: seq<char>, after: seq<char>, ends: set<nat>) {
    |after| == |before| && forall i: nat | i < |before| :: after[i] == if i in ends then NUL else before[i]
  }

  lemma CutTwice(a: seq<char>, b: seq<char>, c: seq<char>, x: set<nat>, y: set<nat>)
    requires Cut(a, b, x) && Cut(b, c, y)
    ensures Cut(a, c, x + y)
  {
  }

  method Terminate(buf: array<char>, c: Cmd<Span>, ghost t: string)
    requires buf.Length == |t| + 1 && Everywhere(c, t)
    modifies buf
    ensures Cut(old(buf[..]), buf[..], Ends(c))
    decreases c
  {
    match c
    case Exec(args) =>
      for i := 0 to |args|
        invariant Cut(old(buf[..]), buf[..], EndsOf(args, i))
      {
        buf[args[i].eq] := NUL;
      }
    case Redir(x, r) =>
      Terminate(buf, x, t);
      buf[r.file.eq] := NUL;
    case Pipe(l, r) =>
      Terminate(buf, l, t);
      ghost var b := buf[..];
      Terminate(buf, r, t);
      CutTwice(old(buf[..]), b, buf[..], Ends(l), Ends(r));
    case List(l, r) =>
      Terminate(buf, l, t);
      ghost var b := buf[..];
      Terminate(buf, r, t);
      CutTwice(old(buf[..]), b, buf[..], Ends(l), Ends(r));
    case Back(x) =>
      Terminate(buf, x, t);
  }

  // ---------------------------------------------------------------- every stored string is its token

  /** The C string at `s.q` is the text of the word. */
  ghost predicate StringAt(b: seq<char>, t: string, s: Span) {
    s.q <= s.eq <= |t| && s.eq < |b| && b[s.q..s.eq] == t[s.q..s.eq] && NUL !in t[s.q..s.eq] && b[s.eq] == NUL
  }

  ghost predicate AllStrings(b: seq<char>, t: string, c: Cmd<Span>) {
    match c
    case Exec(args) => forall i | 0 <= i < |args| :: StringAt(b, t, args[i])
    case Redir(x, r) => AllStrings(b, t, x) && StringAt(b, t, r.file)
    case Pipe(l, r) => AllStrings(b, t, l) && AllStrings(b, t, r)
    case List(l, r) => AllStrings(b, t, l) && AllStrings(b, t, r)
    case Back(x) => AllStrings(b, t, x)
  }

  /** Positions behind words: white space, a symbol or the end of the text. */
  ghost predicate Behind(t: string, e: nat) {
    e <= |t| && (e < |t| ==> Space(t[e]) || Symbol(t[e]))
  }

  lemma {:induction false} EndsOfBehind(t: string, args: seq<Span>, k: nat)
    requires k <= |args| && forall i | 0 <= i < |args| :: IsWord(t, args[i])
    ensures (forall e | e in EndsOf(args, k) :: Behind(t, e)) && forall i | 0 <= i < k :: args[i].eq in EndsOf(args, k)
  {
    if k > 0 { EndsOfBehind(t, args, k - 1); }
  }

  lemma {:induction false} EndsBehind(t: string, c: Cmd<Span>, e: nat)
    requires Everywhere(c, t) && e in Ends(c)
    ensures Behind(t, e)
  {
    match c
    case Exec(args) => EndsOfBehind(t, args, |args|);
    case Redir(x, r) => if e in Ends(x) { EndsBehind(t, x, e); }
    case Pipe(l, r) => if e in Ends(l) { EndsBehind(t, l, e); } else { EndsBehind(t, r, e); }
    case List(l, r) => if e in Ends(l) { EndsBehind(t, l, e); } else { EndsBehind(t, r, e); }
    case Back(x) => EndsBehind(t, x, e);
  }

  // A NUL behind one word never falls into another.
  lemma CutKeepsWord(t: string, b: seq<char>, ends: set<nat>, s: Span)
    requires Cut(t + [NUL], b, ends) && IsWord(t, s) && s.eq in ends && NUL !in t
    requires forall e | e in ends :: Behind(t, e)
    ensures StringAt(b, t, s)
  {
    forall i | s.q <= i < s.eq ensures b[i] == t[i] {
      assert i !in ends;
    }
  }

  lemma {:induction false} CutGivesStrings(t: string, b: seq<char>, c: Cmd<Span>, ends: set<nat>)
    requires Cut(t + [NUL], b, ends) && Everywhere(c, t) && Ends(c) <= ends && NUL !in t
    requires forall e | e in ends :: Behind(t, e)
    ensures AllStrings(b, t, c)
  {
    match c
    case Exec(args) =>
      EndsOfBehind(t, args, |args|);
      forall i | 0 <= i < |args| ensures StringAt(b, t, args[i]) { CutKeepsWord(t, b, ends, args[i]); }
    case Redir(x, r) =>
      CutGivesStrings(t, b, x, ends);
      CutKeepsWord(t, b, ends, r.file);
    case Pipe(l, r) =>
      CutGivesStrings(t, b, l, ends);
      CutGivesStrings(t, b, r, ends);
    case List(l, r) =>
      CutGivesStrings(t, b, l, ends);
      CutGivesStrings(t, b, r, ends);
    case Back(x) => CutGivesStrings(t, b, x, ends);
  }

  // Parsing and terminating in place: what the grammar says, and every stored string equals its token.
  method ParseLineInPlace(buf: array<char>, t: string) returns (ok: bool, c: Cmd<Span>)
    requires NUL !in t && buf[..] == t + [NUL]
    modifies buf
    ensures ok <==> ParseAll(Lex(t, 0)).Got?
    ensures ok ==> ParseAll(Lex(t, 0)) == Got(c, []) && AllStrings(buf[..], t, c)
  {
    ok, c := ParseCmd(t);
    if ok {
      ParsedWords(t);
      assert buf.Length == |buf[..]|;
      Terminate(buf, c, t);
      forall e | e in Ends(c) ensures Behind(t, e) { EndsBehind(t, c, e); }
      CutGivesStrings(t, buf[..], c, Ends(c));
    }
  }
}
