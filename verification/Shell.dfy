/** The recursive descent parser of user/sh.c, which moves a cursor over the text, and `nulterminate`. */
module Shell {
  import opened Common
  import opened ShGrammar
  import opened ShNatural
  import opened ShLexer
  import opened ShText

  // ---------------------------------------------------------------- print and parse

  predicate GoodWords(c: Cmd<string>) {
    match c
    case Exec(args) => forall i | 0 <= i < |args| :: GoodWord(args[i])
    case Redir(x, r) => GoodWords(x) && GoodWord(r.file)
    case Pipe(l, r) => GoodWords(l) && GoodWords(r)
    case List(l, r) => GoodWords(l) && GoodWords(r)
    case Back(x) => GoodWords(x)
  }

  lemma {:induction false} WordsGood(args: seq<string>)
    requires forall i | 0 <= i < |args| :: GoodWord(args[i])
    ensures AllGood(Words(args))
  {
    if args != [] { WordsGood(args[1..]); }
  }

  lemma {:induction false} RedirsGood(rs: seq<Redirection<string>>)
    requires forall i | 0 <= i < |rs| :: GoodWord(rs[i].file)
    ensures AllGood(ShowRedirs(rs))
  {
    if rs != [] { RedirsGood(rs[1..]); }
  }

  lemma {:induction false} CoreGood(c: Cmd<string>)
    requires GoodWords(c)
    ensures GoodWords(Core(c)) && forall i | 0 <= i < |Outer(c)| :: GoodWord(Outer(c)[i].file)
  {
    if c.Redir? { CoreGood(c.cmd); }
  }

  lemma {:induction false} CompoundGood(c: Cmd<string>)
    requires GoodWords(c) && (c.List? || c.Back? || c.Pipe?)
    ensures AllGood(ShowCompound(c))
    decreases c, 0
  {
    match c
    case List(l, r) =>
      LineGood(l);
      LineGood(r);
      BackGood(l);
    case Back(x) => BackGood(x);
    case Pipe(l, r) =>
      UnitGood(l);
      PipeGood(r);
  }

  lemma {:induction false} UnitGood(c: Cmd<string>)
    requires GoodWords(c)
    ensures AllGood(ShowExec(c))
    decreases c, 1
  {
    CoreGood(c);
    RedirsGood(Outer(c));
    if Core(c).Exec? { WordsGood(Core(c).args); } else { CompoundGood(Core(c)); }
  }

  lemma {:induction false} PipeGood(c: Cmd<string>)
    requires GoodWords(c)
    ensures AllGood(ShowPipe(c))
    decreases c, 2
  {
    if c.Pipe? { CompoundGood(c); } else { UnitGood(c); }
  }

  lemma {:induction false} BackGood(c: Cmd<string>)
    requires GoodWords(c)
    ensures AllGood(ShowBack(c))
    decreases c, 3
  {
    if c.Back? { CompoundGood(c); } else { PipeGood(c); }
  }

  lemma {:induction false} LineGood(c: Cmd<string>)
    requires GoodWords(c)
    ensures AllGood(ShowLine(c))
    decreases c, 4
  {
    if c.List? { CompoundGood(c); } else { BackGood(c); }
  }

  function Print(c: Cmd<string>): string {
    ShowTokens(ShowLine(c))
  }

  // Parsing the printed form of any command tree gives back the same tree.
  lemma RoundTrip(c: Cmd<string>)
    requires FewArgs(c) && GoodWords(c)
    ensures var t := Print(c); var r := ParseAll(Lex(t, 0)); r.Got? && MapCmd(Texts(t), r.v) == c
  {
    var t := Print(c);
    LineGood(c);
    LexShown(t, 0, ShowLine(c));
    ParseNatural(Texts(t), Lex(t, 0));
    TokensRoundTrip(c);
  }

  // ---------------------------------------------------------------- the cursor

  method SkipSpace(t: string, p: nat) returns (r: nat)
    requires p <= |t|
    ensures r == Skip(t, p)
  {
    r := p;
    while r < |t| && Space(t[r])
      invariant p <= r <= |t| && Skip(t, r) == Skip(t, p)
    {
      r := r + 1;
    }
  }

  method SkipWord(t: string, p: nat) returns (r: nat)
    requires p <= |t|
    ensures r == WordEnd(t, p)
  {
    r := p;
    while r < |t| && !Space(t[r]) && !Symbol(t[r])
      invariant p <= r <= |t| && WordEnd(t, r) == WordEnd(t, p)
    {
      r := r + 1;
    }
  }

  /** What `gettoken` returns for a token. */
  function Kind(k: Token<Span>): char {
    match k
    case Sym(c) => c
    case Word(_) => 'a'
  }

  /** The token under the cursor, which is not at white space. */
  method ScanToken(t: string, p: nat) returns (tok: char, s: nat)
    requires p < |t| && !Space(t[p])
    ensures tok == Kind(Scan(t, p).0) && s == Scan(t, p).1
  {
    s := p;
    if t[s] == '|' || t[s] == '(' || t[s] == ')' || t[s] == ';' || t[s] == '&' || t[s] == '<' {
      tok := t[s];
      s := s + 1;
    } else if t[s] == '>' {
      tok := '>';
      s := s + 1;
      if s < |t| && t[s] == '>' {
        tok := '+';
        s := s + 1;
      }
    } else {
      tok := 'a';
      s := SkipWord(t, s);
    }
  }

  /** What `gettoken` reports about the tokens from `p` on. */
  ghost predicate TokenIs(t: string, p: nat, tok: char, q: nat, eq: nat, next: nat)
    requires p <= |t|
  {
    && p <= next <= |t| && Skip(t, next) == next
    && if Lex(t, p) == [] then tok == NUL && next == |t|
       else
         && p < next && tok == Kind(Lex(t, p)[0]) && Lex(t, p)[1..] == Lex(t, next)
         && (if Lex(t, p)[0].Word? then Lex(t, p)[0].w == Span(q, eq) else tok != 'a' && tok != NUL)
  }

  lemma TokenAtCursor(t: string, p: nat, q: nat, s: nat)
    requires p <= |t| && q == Skip(t, p) && (if q < |t| then s == Scan(t, q).1 else s == q)
    ensures TokenIs(t, p, if q < |t| then Kind(Scan(t, q).0) else NUL, q, s, Skip(t, s))
  {
    LexSkips(t, s);
    SkipTwice(t, s);
  }

  /** The next token, where it lies and where the one after it starts; NUL at the end of the text. */
  method GetToken(t: string, p: nat) returns (tok: char, q: nat, eq: nat, next: nat)
    requires p <= |t|
    ensures TokenIs(t, p, tok, q, eq, next)
  {
    q := SkipSpace(t, p);
    tok, eq := NUL, q;
    if q < |t| { tok, eq := ScanToken(t, q); }
    next := SkipSpace(t, eq);
    TokenAtCursor(t, p, q, eq);
  }

  /** Moves the cursor to the next token and says whether it starts with one of these characters. */
  method Peek(t: string, p: nat, toks: string) returns (next: nat, found: bool)
    requires p <= |t|
    ensures next == Skip(t, p) && p <= next <= |t| && Lex(t, next) == Lex(t, p)
    ensures found <==> next < |t| && t[next] in toks
  {
    next := SkipSpace(t, p);
    found := next < |t| && t[next] in toks;
    LexSkips(t, p);
  }

  // The character under the cursor decides what the next token starts with.
  lemma FirstChar(t: string, p: nat, c: char)
    requires p <= |t| && Symbol(c)
    ensures var next := Skip(t, p);
            if c == '>' then (next < |t| && t[next] == c <==> Starts(Lex(t, p), '>') || Starts(Lex(t, p), '+'))
            else (next < |t| && t[next] == c <==> Starts(Lex(t, p), c))
  {
  }

  // ---------------------------------------------------------------- the parser

  lemma RedirChars(t: string, p: nat)
    requires p <= |t|
    ensures var next := Skip(t, p);
            next < |t| && t[next] in "<>" <==>
              Starts(Lex(t, p), '<') || Starts(Lex(t, p), '>') || Starts(Lex(t, p), '+')
  {
    FirstChar(t, p, '<');
    FirstChar(t, p, '>');
  }

  lemma EndChars(t: string, p: nat)
    requires p <= |t|
    ensures var next := Skip(t, p); (next < |t| && t[next] in "|)&;") || Lex(t, p) == [] <==> EndsArgs(Lex(t, p))
  {
    FirstChar(t, p, '|');
    FirstChar(t, p, ')');
    FirstChar(t, p, '&');
    FirstChar(t, p, ';');
  }

  /** What the redirections from `ts` on are, after those in `rs`. */
  function RedirsAfter(rs: seq<Redirection<Span>>, ts: seq<Token<Span>>): Parse<seq<Redirection<Span>>, Span> {
    var r := Redirs(ts);
    if r.Fail? then Fail else Got(rs + r.v, r.rest)
  }

  lemma RedirsAfterNone(ts: seq<Token<Span>>)
    ensures RedirsAfter([], ts) == Redirs(ts)
  {
    if Redirs(ts).Got? { assert [] + Redirs(ts).v == Redirs(ts).v; }
  }

  lemma RedirsAfterOne(rs: seq<Redirection<Span>>, ts: seq<Token<Span>>, r: Redirection<Span>)
    requires |ts| >= 2 && ts[1].Word? && (Starts(ts, '<') || Starts(ts, '>') || Starts(ts, '+'))
    requires r == Redirection(ts[1].w, if ts[0].c == '<' then ReadFrom else WriteTo)
    ensures RedirsAfter(rs, ts) == RedirsAfter(rs + [r], ts[2..])
  {
    var more := Redirs(ts[2..]);
    if more.Got? { assert rs + ([r] + more.v) == rs + [r] + more.v; }
  }

  lemma TwoTokens<T>(a: seq<T>, b: seq<T>, c: seq<T>)
    requires a != [] && a[1..] == b && b != [] && b[1..] == c
    ensures |a| >= 2 && a[1] == b[0] && a[2..] == c
  {
  }

  /** `parseredirs`: the redirections at the cursor. */
  method ParseRedirs(t: string, p: nat) returns (ok: bool, rs: seq<Redirection<Span>>, pos: nat)
    requires p <= |t|
    ensures ok ==> p <= pos <= |t| && Redirs(Lex(t, p)) == Got(rs, Lex(t, pos))
    ensures !ok ==> Redirs(Lex(t, p)).Fail?
  {
    rs := [];
    var found;
    pos, found := Peek(t, p, "<>");
    RedirChars(t, p);
    RedirsAfterNone(Lex(t, p));
    while found
      invariant p <= pos <= |t| && (found <==> pos < |t| && t[pos] in "<>") && pos == Skip(t, pos)
      invariant RedirsAfter(rs, Lex(t, pos)) == Redirs(Lex(t, p))
      decreases |t| - pos
    {
      RedirChars(t, pos);
      var tok, q, eq, next := GetToken(t, pos);
      var tok2, q2, eq2, next2 := GetToken(t, next);
      if tok2 != 'a' { return false, rs, pos; }
      var r := Redirection(Span(q2, eq2), if tok == '<' then ReadFrom else WriteTo);
      TwoTokens(Lex(t, pos), Lex(t, next), Lex(t, next2));
      RedirsAfterOne(rs, Lex(t, pos), r);
      rs := rs + [r];
      pos, found := Peek(t, next2, "<>");
      SkipTwice(t, next2);
    }
    RedirChars(t, pos);
    assert rs + [] == rs;
    ok := true;
  }

  /** `parseexec` at a command that does not start with a parenthesis. */
  method ParseArgs(t: string, p: nat) returns (ok: bool, c: Cmd<Span>, pos: nat)
    requires p <= |t| && !Starts(Lex(t, p), '(')
    ensures ok ==> p <= pos <= |t| && ParseExec(Lex(t, p)) == Got(c, Lex(t, pos))
    ensures !ok ==> ParseExec(Lex(t, p)).Fail?
  {
    c := Exec([]);
    var args: seq<Span>, rs, done := [], [], false;
    ok, rs, pos := ParseRedirs(t, p);
    if !ok { return; }
    pos, done := Peek(t, pos, "|)&;");
    while !done
      invariant p <= pos <= |t| && pos == Skip(t, pos) && (done <==> pos < |t| && t[pos] in "|)&;") && |args| < MAXARGS
      invariant Args(Lex(t, pos), args, rs) == ParseExec(Lex(t, p))
      decreases |t| - pos
    {
      EndChars(t, pos);
      var tok, q, eq, next := GetToken(t, pos);
      if tok == NUL { break; }
      if tok != 'a' { return false, c, pos; }
      args := args + [Span(q, eq)];
      if |args| >= MAXARGS { return false, c, pos; }
      var more, at;
      ok, more, at := ParseRedirs(t, next);
      if !ok { return; }
      rs := rs + more;
      pos, done := Peek(t, at, "|)&;");
      SkipTwice(t, at);
    }
    EndChars(t, pos);
    c := Wrap(Exec(args), rs);
    ok := true;
  }

  method ParseExecAt(t: string, p: nat) returns (ok: bool, c: Cmd<Span>, pos: nat)
    requires p <= |t|
    ensures ok ==> p <= pos <= |t| && ParseExec(Lex(t, p)) == Got(c, Lex(t, pos))
    ensures !ok ==> ParseExec(Lex(t, p)).Fail?
    decreases |t| - p, 1
  {
    var block;
    pos, block := Peek(t, p, "(");
    FirstChar(t, p, '(');
    if block {
      ok, c, pos := ParseBlock(t, pos);
    } else {
      ok, c, pos := ParseArgs(t, pos);
    }
  }

  method ParseBlock(t: string, p: nat) returns (ok: bool, c: Cmd<Span>, pos: nat)
    requires p <= |t| && Starts(Lex(t, p), '(')
    ensures ok ==> p <= pos <= |t| && ParseExec(Lex(t, p)) == Got(c, Lex(t, pos))
    ensures !ok ==> ParseExec(Lex(t, p)).Fail?
    decreases |t| - p, 0
  {
    var tok, q, eq, next := GetToken(t, p);
    ok, c, pos := ParseLineAt(t, next);
    if !ok { return; }
    var close, rs;
    FirstChar(t, pos, ')');
    pos, close := Peek(t, pos, ")");
    if !close { return false, c, pos; }
    tok, q, eq, next := GetToken(t, pos);
    ok, rs, pos := ParseRedirs(t, next);
    c := Wrap(c, rs);
  }

  method ParsePipeAt(t: string, p: nat) returns (ok: bool, c: Cmd<Span>, pos: nat)
    requires p <= |t|
    ensures ok ==> p <= pos <= |t| && ParsePipe(Lex(t, p)) == Got(c, Lex(t, pos))
    ensures !ok ==> ParsePipe(Lex(t, p)).Fail?
    decreases |t| - p, 2
  {
    ok, c, pos := ParseExecAt(t, p);
    if !ok { return; }
    var bar;
    FirstChar(t, pos, '|');
    pos, bar := Peek(t, pos, "|");
    if bar {
      var tok, q, eq, next := GetToken(t, pos);
      var right;
      ok, right, pos := ParsePipeAt(t, next);
      c := Pipe(c, right);
    }
  }

  /** The background marks at the cursor. */
  method ParseMarks(t: string, p: nat, c0: Cmd<Span>) returns (c: Cmd<Span>, pos: nat)
    requires p <= |t|
    ensures p <= pos <= |t| && Backs(c0, Lex(t, p)) == (c, Lex(t, pos))
  {
    c := c0;
    var mark;
    FirstChar(t, p, '&');
    pos, mark := Peek(t, p, "&");
    while mark
      invariant p <= pos <= |t| && (mark <==> Starts(Lex(t, pos), '&')) && Backs(c, Lex(t, pos)) == Backs(c0, Lex(t, p))
      decreases |t| - pos
    {
      var tok, q, eq, next := GetToken(t, pos);
      c := Back(c);
      FirstChar(t, next, '&');
      pos, mark := Peek(t, next, "&");
    }
  }

  method ParseLineAt(t: string, p: nat) returns (ok: bool, c: Cmd<Span>, pos: nat)
    requires p <= |t|
    ensures ok ==> p <= pos <= |t| && ParseLine(Lex(t, p)) == Got(c, Lex(t, pos))
    ensures !ok ==> ParseLine(Lex(t, p)).Fail?
    decreases |t| - p, 3
  {
    ok, c, pos := ParsePipeAt(t, p);
    if !ok { return; }
    c, pos := ParseMarks(t, pos, c);
    var semi;
    FirstChar(t, pos, ';');
    pos, semi := Peek(t, pos, ";");
    if semi {
      var tok, q, eq, next := GetToken(t, pos);
      var right;
      ok, right, pos := ParseLineAt(t, next);
      c := List(c, right);
    }
  }

  /** The line `t` is a text of `c`. */
  ghost predicate TextOf(t: string, c: Cmd<Span>) {
    exists ts :: LexedAs(t, 0, ts) && LineText(c, ts) && FewArgs(c)
  }

  lemma TextIsParsed(t: string, c: Cmd<Span>)
    ensures TextOf(t, c) <==> ParseAll(Lex(t, 0)) == Got(c, [])
  {
    ParsesExactly(Lex(t, 0), c);
    LexedExactly(t, 0, Lex(t, 0));
    forall ts | LexedAs(t, 0, ts) ensures ts == Lex(t, 0) { LexedExactly(t, 0, ts); }
  }

  // The cursor parser ends on every text, accepts exactly the texts of commands, and builds the one command that the
  // text is of.
  method ParseCmd(t: string) returns (ok: bool, c: Cmd<Span>)
    ensures ok <==> ParseAll(Lex(t, 0)).Got?
    ensures ok ==> ParseAll(Lex(t, 0)) == Got(c, [])
    ensures forall d :: TextOf(t, d) <==> ok && d == c
  {
    var pos, none;
    ok, c, pos := ParseLineAt(t, 0);
    if ok {
      pos, none := Peek(t, pos, "");
      ok := pos == |t|;
    }
    forall d ensures TextOf(t, d) <==> ParseAll(Lex(t, 0)) == Got(d, []) { TextIsParsed(t, d); }
  }
}
