/** The command grammar of user/sh.c on lists of tokens, and a printer for it.  `W` is what a word is. */
module ShGrammar {
  const MAXARGS: nat := 10

  datatype Token<W> = Sym(c: char) | Word(w: W)

  datatype Mode = ReadFrom | WriteTo

  datatype Redirection<W> = Redirection(file: W, mode: Mode)

  datatype Cmd<W> =
    | Exec(args: seq<W>)
    | Redir(cmd: Cmd<W>, r: Redirection<W>)
    | Pipe(left: Cmd<W>, right: Cmd<W>)
    | List(left: Cmd<W>, right: Cmd<W>)
    | Back(cmd: Cmd<W>)

  /** What a parser returns: a value and the tokens that are left, or a syntax error. */
  datatype Parse<V, W> = Fail | Got(v: V, rest: seq<Token<W>>)

  predicate Starts<W(==)>(ts: seq<Token<W>>, c: char) {
    ts != [] && ts[0] == Sym(c)
  }

  // ---------------------------------------------------------------- the parser

  function Wrap<W>(c: Cmd<W>, rs: seq<Redirection<W>>): Cmd<W>
    decreases |rs|
  {
    if rs == [] then c else Wrap(Redir(c, rs[0]), rs[1..])
  }

  function Backs<W(==)>(c: Cmd<W>, ts: seq<Token<W>>): (r: (Cmd<W>, seq<Token<W>>))
    ensures |r.1| <= |ts|
    decreases |ts|
  {
    if Starts(ts, '&') then Backs(Back(c), ts[1..]) else (c, ts)
  }

  function Redirs<W(==)>(ts: seq<Token<W>>): (r: Parse<seq<Redirection<W>>, W>)
    ensures r.Got? ==> |r.rest| <= |ts|
    decreases |ts|
  {
    if Starts(ts, '<') || Starts(ts, '>') || Starts(ts, '+') then
      if |ts| < 2 || ts[1].Sym? then Fail
      else
        var more := Redirs(ts[2..]);
        var mode := if ts[0].c == '<' then ReadFrom else WriteTo;
        if more.Fail? then Fail else Got([Redirection(ts[1].w, mode)] + more.v, more.rest)
    else Got([], ts)
  }

  predicate EndsArgs<W(==)>(ts: seq<Token<W>>) {
    ts == [] || Starts(ts, '|') || Starts(ts, ')') || Starts(ts, '&') || Starts(ts, ';')
  }

  function Args<W(==)>(ts: seq<Token<W>>, args: seq<W>, rs: seq<Redirection<W>>): (r: Parse<Cmd<W>, W>)
    ensures r.Got? ==> |r.rest| <= |ts|
    decreases |ts|
  {
    if EndsArgs(ts) then Got(Wrap(Exec(args), rs), ts)
    else if ts[0].Sym? || |args| + 1 >= MAXARGS then Fail
    else
      var more := Redirs(ts[1..]);
      if more.Fail? then Fail else Args(more.rest, args + [ts[0].w], rs + more.v)
  }

  function ParseExec<W(==)>(ts: seq<Token<W>>): (r: Parse<Cmd<W>, W>)
    ensures r.Got? ==> |r.rest| <= |ts|
    decreases |ts|, 0
  {
    if Starts(ts, '(') then
      var line := ParseLine(ts[1..]);
      if line.Fail? || !Starts(line.rest, ')') then Fail
      else
        var rs := Redirs(line.rest[1..]);
        if rs.Fail? then Fail else Got(Wrap(line.v, rs.v), rs.rest)
    else
      var rs := Redirs(ts);
      if rs.Fail? then Fail else Args(rs.rest, [], rs.v)
  }

  function ParsePipe<W(==)>(ts: seq<Token<W>>): (r: Parse<Cmd<W>, W>)
    ensures r.Got? ==> |r.rest| <= |ts|
    decreases |ts|, 1
  {
    var left := ParseExec(ts);
    if left.Fail? || !Starts(left.rest, '|') then left
    else
      var right := ParsePipe(left.rest[1..]);
      if right.Fail? then Fail else Got(Pipe(left.v, right.v), right.rest)
  }

  function ParseLine<W(==)>(ts: seq<Token<W>>): (r: Parse<Cmd<W>, W>)
    ensures r.Got? ==> |r.rest| <= |ts|
    decreases |ts|, 2
  {
    var first := ParsePipe(ts);
    if first.Fail? then Fail
    else
      var (c, rest) := Backs(first.v, first.rest);
      if !Starts(rest, ';') then Got(c, rest)
      else
        var more := ParseLine(rest[1..]);
        if more.Fail? then Fail else Got(List(c, more.v), more.rest)
  }

  /** The whole line, or none. */
  function ParseAll<W(==)>(ts: seq<Token<W>>): Parse<Cmd<W>, W> {
    var r := ParseLine(ts);
    if r.Got? && r.rest != [] then Fail else r
  }

  // ---------------------------------------------------------------- the printer

  /** The command below its redirections, and these from the inside out. */
  function Core<W>(c: Cmd<W>): (r: Cmd<W>)
    ensures !r.Redir? && (r == c || r < c)
  {
    if c.Redir? then Core(c.cmd) else c
  }

  function Outer<W>(c: Cmd<W>): seq<Redirection<W>> {
    if c.Redir? then Outer(c.cmd) + [c.r] else []
  }

  function Words<W>(args: seq<W>): seq<Token<W>> {
    if args == [] then [] else [Word(args[0])] + Words(args[1..])
  }

  function ShowRedirs<W>(rs: seq<Redirection<W>>): seq<Token<W>> {
    if rs == [] then [] else [Sym(if rs[0].mode == ReadFrom then '<' else '>'), Word(rs[0].file)] + ShowRedirs(rs[1..])
  }

  /** A list, background command or pipe without parentheses. */
  function ShowCompound<W>(c: Cmd<W>): seq<Token<W>>
    requires c.List? || c.Back? || c.Pipe?
    decreases c, 0
  {
    match c
    case List(l, r) => ShowBack(l) + [Sym(';')] + ShowLine(r)
    case Back(x) => ShowBack(x) + [Sym('&')]
    case Pipe(l, r) => ShowExec(l) + [Sym('|')] + ShowPipe(r)
  }

  function ShowExec<W>(c: Cmd<W>): seq<Token<W>>
    decreases c, 1
  {
    var core := Core(c);
    (if core.Exec? then Words(core.args) else [Sym('(')] + ShowCompound(core) + [Sym(')')]) + ShowRedirs(Outer(c))
  }

  function ShowPipe<W>(c: Cmd<W>): seq<Token<W>>
    decreases c, 2
  {
    if c.Pipe? then ShowCompound(c) else ShowExec(c)
  }

  function ShowBack<W>(c: Cmd<W>): seq<Token<W>>
    decreases c, 3
  {
    if c.Back? then ShowCompound(c) else ShowPipe(c)
  }

  function ShowLine<W>(c: Cmd<W>): seq<Token<W>>
    decreases c, 4
  {
    if c.List? then ShowCompound(c) else ShowBack(c)
  }

  /** At most nine arguments everywhere. */
  predicate FewArgs<W>(c: Cmd<W>) {
    match c
    case Exec(args) => |args| < MAXARGS
    case Redir(x, _) => FewArgs(x)
    case Pipe(l, r) => FewArgs(l) && FewArgs(r)
    case List(l, r) => FewArgs(l) && FewArgs(r)
    case Back(x) => FewArgs(x)
  }

  // ---------------------------------------------------------------- what is printed is read back

  lemma {:induction false} WrapMore<W>(c: Cmd<W>, rs: seq<Redirection<W>>, r: Redirection<W>)
    ensures Wrap(c, rs + [r]) == Redir(Wrap(c, rs), r)
    decreases |rs|
  {
    if rs != [] {
      assert (rs + [r])[1..] == rs[1..] + [r];
      WrapMore(Redir(c, rs[0]), rs[1..], r);
    }
  }

  lemma {:induction false} WrapCore<W>(c: Cmd<W>)
    ensures Wrap(Core(c), Outer(c)) == c
  {
    if c.Redir? {
      WrapCore(c.cmd);
      WrapMore(Core(c.cmd), Outer(c.cmd), c.r);
    }
  }

  lemma {:induction false} RedirsStep<W>(rs: seq<Redirection<W>>, rest: seq<Token<W>>)
    requires rs != []
    ensures var ts := ShowRedirs(rs) + rest;
            && |ts| >= 2 && ts[0] == Sym(if rs[0].mode == ReadFrom then '<' else '>') && ts[1] == Word(rs[0].file)
            && ts[2..] == ShowRedirs(rs[1..]) + rest
  {
  }

  lemma {:induction false} RedirsBack<W>(rs: seq<Redirection<W>>, rest: seq<Token<W>>)
    requires EndsArgs(rest)
    ensures Redirs(ShowRedirs(rs) + rest) == Got(rs, rest)
    decreases |rs|
  {
    if rs == [] {
      assert ShowRedirs(rs) + rest == rest;
    } else {
      RedirsStep(rs, rest);
      RedirsBack(rs[1..], rest);
      assert [rs[0]] + rs[1..] == rs;
    }
  }

  lemma {:induction false} WordsStep<W>(words: seq<W>, x: seq<Token<W>>)
    requires words != []
    ensures var ts := Words(words) + x; ts[0] == Word(words[0]) && ts[1..] == Words(words[1..]) + x
  {
  }

  lemma NoRedirs<W>(ts: seq<Token<W>>)
    requires ts != [] && ts[0].Word?
    ensures Redirs(ts) == Got([], ts)
  {
  }

  lemma ArgsStep<W>(ts: seq<Token<W>>, args: seq<W>, rs: seq<Redirection<W>>, more: seq<Redirection<W>>,
                    rest: seq<Token<W>>)
    requires ts != [] && ts[0].Word? && |args| + 1 < MAXARGS && Redirs(ts[1..]) == Got(more, rest)
    ensures Args(ts, args, rs) == Args(rest, args + [ts[0].w], rs + more)
  {
  }

  // Arguments first and redirections after them.
  lemma {:induction false} ArgsBack<W>(words: seq<W>, args: seq<W>, rs: seq<Redirection<W>>, rest: seq<Token<W>>)
    requires EndsArgs(rest) && |args| + |words| < MAXARGS && words != []
    ensures Args(Words(words) + (ShowRedirs(rs) + rest), args, []) == Got(Wrap(Exec(args + words), rs), rest)
    decreases |words|
  {
    var x := ShowRedirs(rs) + rest;
    var ts := Words(words) + x;
    WordsStep(words, x);
    var none: seq<Redirection<W>> := [];
    if |words| == 1 {
      assert Words(words[1..]) + x == x;
      RedirsBack(rs, rest);
      ArgsStep(ts, args, none, rs, rest);
      assert args + [words[0]] == args + words && none + rs == rs;
    } else {
      WordsStep(words[1..], x);
      NoRedirs(ts[1..]);
      ArgsStep(ts, args, none, none, ts[1..]);
      ArgsBack(words[1..], args + [words[0]], rs, rest);
      assert args + [words[0]] + words[1..] == args + words && none + none == none;
    }
  }

  lemma NotBlock<W>(rs: seq<Redirection<W>>, rest: seq<Token<W>>)
    requires EndsArgs(rest)
    ensures !Starts(ShowRedirs(rs) + rest, '(')
  {
  }

  lemma ExecBack<W>(words: seq<W>, rs: seq<Redirection<W>>, rest: seq<Token<W>>)
    requires EndsArgs(rest) && |words| < MAXARGS
    ensures ParseExec(Words(words) + (ShowRedirs(rs) + rest)) == Got(Wrap(Exec(words), rs), rest)
  {
    var x := ShowRedirs(rs) + rest;
    if words == [] {
      assert Words(words) + x == x;
      RedirsBack(rs, rest);
      NotBlock(rs, rest);
    } else {
      WordsStep(words, x);
      NoRedirs(Words(words) + x);
      ArgsBack(words, [], rs, rest);
      assert [] + words == words;
    }
  }

  lemma Regroup<T>(a: seq<T>, b: seq<T>, c: seq<T>, d: seq<T>)
    ensures a + b + c + d == a + (b + c + d) && a + b + c + d == (a + b) + (c + d)
  {
  }

  predicate EndsLine<W(==)>(ts: seq<Token<W>>) {
    ts == [] || Starts(ts, ')')
  }

  function Amps<W>(n: nat): seq<Token<W>> {
    seq(n, _ => Sym('&'))
  }

  function Times<W>(c: Cmd<W>, n: nat): Cmd<W>
    decreases n
  {
    if n == 0 then c else Times(Back(c), n - 1)
  }

  lemma {:induction false} BacksBack<W>(c: Cmd<W>, n: nat, rest: seq<Token<W>>)
    requires !Starts(rest, '&')
    ensures Backs(c, Amps(n) + rest) == (Times(c, n), rest)
    decreases n
  {
    if n == 0 {
      assert Amps<W>(0) + rest == rest;
    } else {
      assert (Amps<W>(n) + rest)[1..] == Amps<W>(n - 1) + rest;
      BacksBack(Back(c), n - 1, rest);
    }
  }

  lemma {:induction false} TimesMore<W>(c: Cmd<W>, n: nat)
    ensures Times(c, n + 1) == Back(Times(c, n))
    decreases n
  {
    if n > 0 { TimesMore(Back(c), n - 1); }
  }

  /** The command below its background marks, and their number. */
  function Quiet<W>(c: Cmd<W>): Cmd<W> {
    if c.Back? then Quiet(c.cmd) else c
  }

  function Marks<W>(c: Cmd<W>): nat {
    if c.Back? then Marks(c.cmd) + 1 else 0
  }

  lemma {:induction false} TimesQuiet<W>(c: Cmd<W>)
    ensures Times(Quiet(c), Marks(c)) == c
  {
    if c.Back? {
      TimesQuiet(c.cmd);
      TimesMore(Quiet(c.cmd), Marks(c.cmd));
    }
  }

  lemma {:induction false} LineBack<W>(c: Cmd<W>, rest: seq<Token<W>>)
    requires FewArgs(c) && EndsLine(rest)
    ensures ParseLine(ShowLine(c) + rest) == Got(c, rest)
    decreases c, 6
  {
    if c.List? {
      CompoundBack(c, rest);
    } else {
      BackedBack(c, rest);
    }
  }

  lemma {:induction false} BackedBack<W>(c: Cmd<W>, rest: seq<Token<W>>)
    requires FewArgs(c) && EndsArgs(rest) && !Starts(rest, '|') && !Starts(rest, '&')
    ensures ParsePipe(ShowBack(c) + rest) == Got(Quiet(c), Amps(Marks(c)) + rest)
    ensures Backs(Quiet(c), Amps(Marks(c)) + rest) == (c, rest)
    decreases c, 5
  {
    AmpsBack(c, rest);
    BacksBack(Quiet(c), Marks(c), rest);
    TimesQuiet(c);
  }

  // What comes before the background marks is one pipe.
  lemma {:induction false} AmpsBack<W>(c: Cmd<W>, rest: seq<Token<W>>)
    requires FewArgs(c) && EndsArgs(rest) && !Starts(rest, '|')
    ensures ParsePipe(ShowBack(c) + rest) == Got(Quiet(c), Amps(Marks(c)) + rest)
    decreases c, 4
  {
    if c.Back? {
      var tail := [Sym('&')] + rest;
      assert ShowBack(c) + rest == ShowBack(c.cmd) + tail;
      AmpsBack(c.cmd, tail);
      assert Amps<W>(Marks(c.cmd)) + tail == Amps<W>(Marks(c)) + rest;
    } else {
      PipeBack(c, rest);
      assert Amps<W>(0) + rest == rest;
    }
  }

  lemma {:induction false} PipeBack<W>(c: Cmd<W>, rest: seq<Token<W>>)
    requires FewArgs(c) && EndsArgs(rest) && !Starts(rest, '|')
    ensures ParsePipe(ShowPipe(c) + rest) == Got(c, rest)
    decreases c, 3
  {
    if c.Pipe? {
      PipesBack(c.left, c.right, rest);
    } else {
      UnitBack(c, rest);
    }
  }

  lemma BlockText<W>(inner: seq<Token<W>>, rs: seq<Token<W>>, rest: seq<Token<W>>)
    ensures var ts, tail := [Sym('(')] + inner + [Sym(')')] + rs + rest, [Sym(')')] + rs + rest;
            ts[0] == Sym('(') && ts[1..] == inner + tail && tail[1..] == rs + rest
  {
  }

  // A block parses back if what is inside does.
  lemma BlockBack<W>(core: Cmd<W>, rs: seq<Redirection<W>>, rest: seq<Token<W>>, tail: seq<Token<W>>)
    requires core.List? || core.Back? || core.Pipe?
    requires EndsArgs(rest) && tail == [Sym(')')] + ShowRedirs(rs) + rest
    requires ParseLine(ShowCompound(core) + tail) == Got(core, tail)
    ensures ParseExec([Sym('(')] + ShowCompound(core) + [Sym(')')] + ShowRedirs(rs) + rest) == Got(Wrap(core, rs), rest)
  {
    BlockText(ShowCompound(core), ShowRedirs(rs), rest);
    RedirsBack(rs, rest);
  }

  lemma {:induction false} CoreFewArgs<W>(c: Cmd<W>)
    requires FewArgs(c)
    ensures FewArgs(Core(c))
  {
    if c.Redir? { CoreFewArgs(c.cmd); }
  }

  lemma {:induction false} UnitBack<W>(c: Cmd<W>, rest: seq<Token<W>>)
    requires FewArgs(c) && EndsArgs(rest)
    ensures ParseExec(ShowExec(c) + rest) == Got(c, rest)
    decreases c, 2
  {
    var core, rs := Core(c), Outer(c);
    CoreFewArgs(c);
    WrapCore(c);
    if core.Exec? {
      assert ShowExec(c) + rest == Words(core.args) + (ShowRedirs(rs) + rest);
      ExecBack(core.args, rs, rest);
    } else {
      var tail := [Sym(')')] + ShowRedirs(rs) + rest;
      CompoundBack(core, tail);
      BlockBack(core, rs, rest, tail);
    }
  }

  lemma LineStep<W>(ts: seq<Token<W>>, p: Cmd<W>, r: seq<Token<W>>, c: Cmd<W>, rest: seq<Token<W>>)
    requires ParsePipe(ts) == Got(p, r) && Backs(p, r) == (c, rest) && !Starts(rest, ';')
    ensures ParseLine(ts) == Got(c, rest)
  {
  }

  lemma {:induction false} CompoundBack<W>(c: Cmd<W>, rest: seq<Token<W>>)
    requires FewArgs(c) && (c.List? || c.Back? || c.Pipe?) && EndsLine(rest)
    ensures ParseLine(ShowCompound(c) + rest) == Got(c, rest)
    decreases c, 1
  {
    match c
    case List(l, r) => ListBack(l, r, rest);
    case Back(x) => MarkBack(x, rest);
    case Pipe(l, r) =>
      PipesBack(l, r, rest);
      LineStep(ShowCompound(c) + rest, c, rest, c, rest);
  }

  lemma ListStep<W>(ts: seq<Token<W>>, p: Cmd<W>, r: seq<Token<W>>, c: Cmd<W>, tail: seq<Token<W>>, d: Cmd<W>,
                    rest: seq<Token<W>>)
    requires ParsePipe(ts) == Got(p, r) && Backs(p, r) == (c, tail) && Starts(tail, ';')
    requires ParseLine(tail[1..]) == Got(d, rest)
    ensures ParseLine(ts) == Got(List(c, d), rest)
  {
  }

  lemma ListText<W>(a: seq<Token<W>>, b: seq<Token<W>>, rest: seq<Token<W>>)
    ensures var tail := [Sym(';')] + b + rest;
            a + [Sym(';')] + b + rest == a + tail && tail[0] == Sym(';') && tail[1..] == b + rest
  {
  }

  lemma {:induction false} ListBack<W>(l: Cmd<W>, r: Cmd<W>, rest: seq<Token<W>>)
    requires FewArgs(l) && FewArgs(r) && EndsLine(rest)
    ensures ParseLine(ShowCompound(List(l, r)) + rest) == Got(List(l, r), rest)
    decreases List(l, r), 0
  {
    var tail := [Sym(';')] + ShowLine(r) + rest;
    ListText(ShowBack(l), ShowLine(r), rest);
    BackedBack(l, tail);
    LineBack(r, rest);
    ListStep(ShowBack(l) + tail, Quiet(l), Amps(Marks(l)) + tail, l, tail, r, rest);
  }

  lemma {:induction false} MarkBack<W>(x: Cmd<W>, rest: seq<Token<W>>)
    requires FewArgs(x) && EndsLine(rest)
    ensures ParseLine(ShowCompound(Back(x)) + rest) == Got(Back(x), rest)
    decreases Back(x), 0
  {
    var c := Back(x);
    var tail := [Sym('&')] + rest;
    assert ShowCompound(c) + rest == ShowBack(x) + tail;
    AmpsBack(x, tail);
    assert Amps<W>(Marks(x)) + tail == Amps<W>(Marks(c)) + rest;
    BacksBack(Quiet(c), Marks(c), rest);
    TimesQuiet(c);
    LineStep(ShowCompound(c) + rest, Quiet(c), Amps(Marks(c)) + rest, c, rest);
  }

  lemma {:induction false} PipesBack<W>(l: Cmd<W>, r: Cmd<W>, rest: seq<Token<W>>)
    requires FewArgs(l) && FewArgs(r) && EndsArgs(rest) && !Starts(rest, '|')
    ensures ParsePipe(ShowCompound(Pipe(l, r)) + rest) == Got(Pipe(l, r), rest)
    decreases Pipe(l, r), 0
  {
    var tail := [Sym('|')] + ShowPipe(r) + rest;
    Regroup(ShowExec(l), [Sym('|')], ShowPipe(r), rest);
    UnitBack(l, tail);
    assert tail[1..] == ShowPipe(r) + rest;
    PipeBack(r, rest);
  }

  // Every command is read back from its printed form.
  lemma TokensRoundTrip<W>(c: Cmd<W>)
    requires FewArgs(c)
    ensures ParseAll(ShowLine(c)) == Got(c, [])
  {
    LineBack(c, []);
    assert ShowLine(c) + [] == ShowLine(c);
  }
}
