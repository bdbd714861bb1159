/** The grammar does not look into words: changing the words of the input changes the words of the result alike. */
module ShNatural {
  import opened ShGrammar

  function MapToken<A, B>(f: A -> B, t: Token<A>): Token<B> {
    match t
    case Sym(c) => Sym(c)
    case Word(w) => Word(f(w))
  }

  function MapTokens<A, B>(f: A -> B, ts: seq<Token<A>>): (r: seq<Token<B>>)
    ensures |r| == |ts| && forall i | 0 <= i < |ts| :: r[i] == MapToken(f, ts[i])
  {
    seq(|ts|, i requires 0 <= i < |ts| => MapToken(f, ts[i]))
  }

  function MapRedirection<A, B>(f: A -> B, r: Redirection<A>): Redirection<B> {
    Redirection(f(r.file), r.mode)
  }

  function MapRedirections<A, B>(f: A -> B, rs: seq<Redirection<A>>): (r: seq<Redirection<B>>)
    ensures |r| == |rs| && forall i | 0 <= i < |rs| :: r[i] == MapRedirection(f, rs[i])
  {
    seq(|rs|, i requires 0 <= i < |rs| => MapRedirection(f, rs[i]))
  }

  function MapWords<A, B>(f: A -> B, ws: seq<A>): (r: seq<B>)
    ensures |r| == |ws| && forall i | 0 <= i < |ws| :: r[i] == f(ws[i])
  {
    seq(|ws|, i requires 0 <= i < |ws| => f(ws[i]))
  }

  function MapCmd<A, B>(f: A -> B, c: Cmd<A>): Cmd<B> {
    match c
    case Exec(args) => Exec(MapWords(f, args))
    case Redir(x, r) => Redir(MapCmd(f, x), MapRedirection(f, r))
    case Pipe(l, r) => Pipe(MapCmd(f, l), MapCmd(f, r))
    case List(l, r) => List(MapCmd(f, l), MapCmd(f, r))
    case Back(x) => Back(MapCmd(f, x))
  }

  function MapParse<A, B>(f: A -> B, p: Parse<Cmd<A>, A>): Parse<Cmd<B>, B> {
    if p.Fail? then Fail else Got(MapCmd(f, p.v), MapTokens(f, p.rest))
  }

  lemma {:induction false} WrapNatural<A, B>(f: A -> B, c: Cmd<A>, rs: seq<Redirection<A>>)
    ensures MapCmd(f, Wrap(c, rs)) == Wrap(MapCmd(f, c), MapRedirections(f, rs))
    decreases |rs|
  {
    if rs != [] {
      WrapNatural(f, Redir(c, rs[0]), rs[1..]);
      assert MapRedirections(f, rs)[1..] == MapRedirections(f, rs[1..]);
    }
  }

  lemma TokensTail<A, B>(f: A -> B, ts: seq<Token<A>>, k: nat)
    requires k <= |ts|
    ensures MapTokens(f, ts)[k..] == MapTokens(f, ts[k..])
  {
  }

  lemma StartsNatural<A, B>(f: A -> B, ts: seq<Token<A>>, c: char)
    ensures Starts(MapTokens(f, ts), c) <==> Starts(ts, c)
  {
  }

  lemma EndsNatural<A, B>(f: A -> B, ts: seq<Token<A>>)
    ensures EndsArgs(MapTokens(f, ts)) <==> EndsArgs(ts)
  {
  }

  lemma {:induction false} BacksNatural<A, B>(f: A -> B, c: Cmd<A>, ts: seq<Token<A>>)
    ensures var (d, r) := Backs(c, ts); Backs(MapCmd(f, c), MapTokens(f, ts)) == (MapCmd(f, d), MapTokens(f, r))
    decreases |ts|
  {
    StartsNatural(f, ts, '&');
    if Starts(ts, '&') {
      TokensTail(f, ts, 1);
      BacksNatural(f, Back(c), ts[1..]);
    }
  }

  lemma {:induction false} RedirsNatural<A, B>(f: A -> B, ts: seq<Token<A>>)
    ensures var p := Redirs(ts);
            Redirs(MapTokens(f, ts)) == if p.Fail? then Fail else Got(MapRedirections(f, p.v), MapTokens(f, p.rest))
    decreases |ts|
  {
    StartsNatural(f, ts, '<');
    StartsNatural(f, ts, '>');
    StartsNatural(f, ts, '+');
    if (Starts(ts, '<') || Starts(ts, '>') || Starts(ts, '+')) && |ts| >= 2 && ts[1].Word? {
      TokensTail(f, ts, 2);
      RedirsNatural(f, ts[2..]);
      var more := Redirs(ts[2..]);
      if more.Got? {
        var r := Redirection(ts[1].w, if ts[0].c == '<' then ReadFrom else WriteTo);
        assert MapRedirections(f, [r] + more.v) == [MapRedirection(f, r)] + MapRedirections(f, more.v);
      }
    } else {
      assert MapRedirections(f, []) == [];
    }
  }

  lemma {:induction false} ArgsNatural<A, B>(f: A -> B, ts: seq<Token<A>>, args: seq<A>, rs: seq<Redirection<A>>)
    ensures Args(MapTokens(f, ts), MapWords(f, args), MapRedirections(f, rs)) == MapParse(f, Args(ts, args, rs))
    decreases |ts|
  {
    EndsNatural(f, ts);
    if EndsArgs(ts) {
      WrapNatural(f, Exec(args), rs);
    } else if ts[0].Word? && |args| + 1 < MAXARGS {
      TokensTail(f, ts, 1);
      RedirsNatural(f, ts[1..]);
      var more := Redirs(ts[1..]);
      if more.Got? {
        ArgsNatural(f, more.rest, args + [ts[0].w], rs + more.v);
        assert MapWords(f, args + [ts[0].w]) == MapWords(f, args) + [f(ts[0].w)];
        assert MapRedirections(f, rs + more.v) == MapRedirections(f, rs) + MapRedirections(f, more.v);
      }
    }
  }

  lemma {:induction false} ExecNatural<A, B>(f: A -> B, ts: seq<Token<A>>)
    ensures ParseExec(MapTokens(f, ts)) == MapParse(f, ParseExec(ts))
    decreases |ts|, 0
  {
    StartsNatural(f, ts, '(');
    if Starts(ts, '(') {
      TokensTail(f, ts, 1);
      LineNatural(f, ts[1..]);
      var line := ParseLine(ts[1..]);
      if line.Got? {
        StartsNatural(f, line.rest, ')');
        if Starts(line.rest, ')') {
          TokensTail(f, line.rest, 1);
          RedirsNatural(f, line.rest[1..]);
          var rs := Redirs(line.rest[1..]);
          if rs.Got? { WrapNatural(f, line.v, rs.v); }
        }
      }
    } else {
      RedirsNatural(f, ts);
      var rs := Redirs(ts);
      if rs.Got? {
        ArgsNatural(f, rs.rest, [], rs.v);
        assert MapWords(f, []) == [];
      }
    }
  }

  lemma {:induction false} PipeNatural<A, B>(f: A -> B, ts: seq<Token<A>>)
    ensures ParsePipe(MapTokens(f, ts)) == MapParse(f, ParsePipe(ts))
    decreases |ts|, 1
  {
    ExecNatural(f, ts);
    var left := ParseExec(ts);
    if left.Got? {
      StartsNatural(f, left.rest, '|');
      if Starts(left.rest, '|') {
        TokensTail(f, left.rest, 1);
        PipeNatural(f, left.rest[1..]);
      }
    }
  }

  lemma {:induction false} LineNatural<A, B>(f: A -> B, ts: seq<Token<A>>)
    ensures ParseLine(MapTokens(f, ts)) == MapParse(f, ParseLine(ts))
    decreases |ts|, 2
  {
    PipeNatural(f, ts);
    var first := ParsePipe(ts);
    if first.Got? {
      BacksNatural(f, first.v, first.rest);
      var (c, rest) := Backs(first.v, first.rest);
      StartsNatural(f, rest, ';');
      if Starts(rest, ';') {
        TokensTail(f, rest, 1);
        LineNatural(f, rest[1..]);
      }
    }
  }

  // The result for other words is the result with other words.
  lemma ParseNatural<A, B>(f: A -> B, ts: seq<Token<A>>)
    ensures ParseAll(MapTokens(f, ts)) == MapParse(f, ParseAll(ts))
  {
    LineNatural(f, ts);
  }
}
