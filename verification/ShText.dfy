/** What a text of a command is, without a parser: words and redirections in any order for a simple command, and
parentheses, bars, ampersands and semicolons around and between commands.  The grammar of user/sh.c reads exactly these
texts. */
module ShText {
  import opened ShGrammar

  // ---------------------------------------------------------------- simple commands

  /** A part of a simple command: an argument, or a redirection symbol with its file. */
  datatype Item<W> = Arg(w: W) | To(sym: char, file: W)

  predicate RedirSym(c: char) {
    c == '<' || c == '>' || c == '+'
  }

  predicate ItemOk<W>(i: Item<W>) {
    i.To? ==> RedirSym(i.sym)
  }

  predicate AllOk<W>(items: seq<Item<W>>) {
    forall k | 0 <= k < |items| :: ItemOk(items[k])
  }

  function ItemTokens<W>(i: Item<W>): seq<Token<W>> {
    match i
    case Arg(w) => [Word(w)]
    case To(sym, file) => [Sym(sym), Word(file)]
  }

  function Tokens<W>(items: seq<Item<W>>): seq<Token<W>> {
    if items == [] then [] else ItemTokens(items[0]) + Tokens(items[1..])
  }

  function ItemArgs<W>(i: Item<W>): seq<W> {
    if i.Arg? then [i.w] else []
  }

  function ItemRedirs<W>(i: Item<W>): seq<Redirection<W>> {
    if i.Arg? then [] else [Redirection(i.file, if i.sym == '<' then ReadFrom else WriteTo)]
  }

  /** The arguments, in their order. */
  function ArgsOf<W>(items: seq<Item<W>>): seq<W> {
    if items == [] then [] else ItemArgs(items[0]) + ArgsOf(items[1..])
  }

  /** The redirections, in their order. */
  function RedirsOf<W>(items: seq<Item<W>>): seq<Redirection<W>> {
    if items == [] then [] else ItemRedirs(items[0]) + RedirsOf(items[1..])
  }

  // ---------------------------------------------------------------- texts of commands

  /** The command below its `k` outermost redirections. */
  function Peel<W>(c: Cmd<W>, k: nat): Cmd<W>
    requires k <= |Outer(c)|
  {
    if k == 0 then c else Peel(c.cmd, k - 1)
  }

  /** Arguments and redirections in any order; the first redirection is the innermost. */
  ghost predicate SimpleText<W(!new)>(c: Cmd<W>, ts: seq<Token<W>>, items: seq<Item<W>>) {
    ts == Tokens(items) && AllOk(items) && Core(c) == Exec(ArgsOf(items)) && Outer(c) == RedirsOf(items)
  }

  /** Redirections and nothing else: the outermost ones of `c`. */
  ghost predicate RedirText<W(!new)>(c: Cmd<W>, ts: seq<Token<W>>, items: seq<Item<W>>) {
    && ts == Tokens(items) && AllOk(items) && ArgsOf(items) == [] && |RedirsOf(items)| <= |Outer(c)|
    && RedirsOf(items) == Outer(c)[|Outer(c)| - |RedirsOf(items)|..]
  }

  /** Parentheses around a line up to position `n`, and redirections behind them. */
  ghost predicate BlockText<W(!new)>(c: Cmd<W>, ts: seq<Token<W>>, n: nat, items: seq<Item<W>>)
    decreases |ts|, 0
  {
    && 0 < n < |ts| && ts[0] == Sym('(') && ts[n] == Sym(')') && RedirText(c, ts[n + 1..], items)
    && LineText(Peel(c, |RedirsOf(items)|), ts[1..n])
  }

  ghost predicate UnitText<W(!new)>(c: Cmd<W>, ts: seq<Token<W>>)
    decreases |ts|, 1
  {
    (exists items :: SimpleText(c, ts, items)) || exists n: nat, items :: BlockText(c, ts, n, items)
  }

  ghost predicate BarText<W(!new)>(c: Cmd<W>, ts: seq<Token<W>>, n: nat)
    decreases |ts|, 2
  {
    c.Pipe? && n < |ts| && ts[n] == Sym('|') && UnitText(c.left, ts[..n]) && PipeText(c.right, ts[n + 1..])
  }

  ghost predicate PipeText<W(!new)>(c: Cmd<W>, ts: seq<Token<W>>)
    decreases |ts|, 3
  {
    UnitText(c, ts) || exists n: nat :: BarText(c, ts, n)
  }

  ghost predicate BackText<W(!new)>(c: Cmd<W>, ts: seq<Token<W>>)
    decreases |ts|, 4
  {
    || PipeText(c, ts)
    || (c.Back? && ts != [] && ts[|ts| - 1] == Sym('&') && BackText(c.cmd, ts[..|ts| - 1]))
  }

  ghost predicate SemiText<W(!new)>(c: Cmd<W>, ts: seq<Token<W>>, n: nat)
    decreases |ts|, 5
  {
    c.List? && n < |ts| && ts[n] == Sym(';') && BackText(c.left, ts[..n]) && LineText(c.right, ts[n + 1..])
  }

  /** `ts` is a text of `c`. */
  ghost predicate LineText<W(!new)>(c: Cmd<W>, ts: seq<Token<W>>)
    decreases |ts|, 6
  {
    BackText(c, ts) || exists n: nat :: SemiText(c, ts, n)
  }

  // ---------------------------------------------------------------- lists of items

  lemma Assoc<T>(x: seq<T>, y: seq<T>, z: seq<T>)
    ensures x + (y + z) == (x + y) + z
  {
  }

  lemma TailOf<T>(a: seq<T>, b: seq<T>)
    requires a != []
    ensures (a + b)[0] == a[0] && (a + b)[1..] == a[1..] + b
  {
  }

  lemma {:induction false} TokensJoin<W>(a: seq<Item<W>>, b: seq<Item<W>>)
    ensures Tokens(a + b) == Tokens(a) + Tokens(b)
    decreases |a|
  {
    if a == [] {
      assert a + b == b;
    } else {
      TokensJoin(a[1..], b);
      TailOf(a, b);
      Assoc(ItemTokens(a[0]), Tokens(a[1..]), Tokens(b));
    }
  }

  lemma {:induction false} ArgsJoin<W>(a: seq<Item<W>>, b: seq<Item<W>>)
    ensures ArgsOf(a + b) == ArgsOf(a) + ArgsOf(b)
    decreases |a|
  {
    if a == [] {
      assert a + b == b;
    } else {
      ArgsJoin(a[1..], b);
      TailOf(a, b);
      Assoc(ItemArgs(a[0]), ArgsOf(a[1..]), ArgsOf(b));
    }
  }

  lemma {:induction false} RedirsJoin<W>(a: seq<Item<W>>, b: seq<Item<W>>)
    ensures RedirsOf(a + b) == RedirsOf(a) + RedirsOf(b)
    decreases |a|
  {
    if a == [] {
      assert a + b == b;
    } else {
      RedirsJoin(a[1..], b);
      TailOf(a, b);
      Assoc(ItemRedirs(a[0]), RedirsOf(a[1..]), RedirsOf(b));
    }
  }

  lemma FirstItem<W>(i: Item<W>, more: seq<Item<W>>)
    ensures Tokens([i] + more) == ItemTokens(i) + Tokens(more)
    ensures ArgsOf([i] + more) == ItemArgs(i) + ArgsOf(more) && RedirsOf([i] + more) == ItemRedirs(i) + RedirsOf(more)
  {
    assert ([i] + more)[1..] == more;
  }

  lemma {:induction false} WrapParts<W>(c: Cmd<W>, rs: seq<Redirection<W>>)
    ensures Core(Wrap(c, rs)) == Core(c) && Outer(Wrap(c, rs)) == Outer(c) + rs
    ensures (FewArgs(Wrap(c, rs)) <==> FewArgs(c))
    decreases |rs|
  {
    if rs != [] {
      WrapParts(Redir(c, rs[0]), rs[1..]);
      assert Outer(c) + [rs[0]] + rs[1..] == Outer(c) + rs;
    }
  }

  lemma {:induction false} PeelWrap<W>(c: Cmd<W>, rs: seq<Redirection<W>>)
    ensures |rs| <= |Outer(Wrap(c, rs))| && Peel(Wrap(c, rs), |rs|) == c
    decreases |rs|
  {
    WrapParts(c, rs);
    if rs != [] {
      var n := |rs| - 1;
      assert rs[..n] + [rs[n]] == rs;
      WrapMore(c, rs[..n], rs[n]);
      PeelWrap(c, rs[..n]);
    }
  }

  lemma {:induction false} WrapPeel<W>(c: Cmd<W>, k: nat)
    requires k <= |Outer(c)|
    ensures Wrap(Peel(c, k), Outer(c)[|Outer(c)| - k..]) == c && (FewArgs(Peel(c, k)) <==> FewArgs(c))
  {
    if k > 0 {
      WrapPeel(c.cmd, k - 1);
      var rs := Outer(c.cmd)[|Outer(c.cmd)| - (k - 1)..];
      assert Outer(c)[|Outer(c)| - k..] == rs + [c.r];
      WrapMore(Peel(c, k), rs, c.r);
    }
  }

  // ---------------------------------------------------------------- what is read was a text

  /** Redirections: only these, and these. */
  ghost predicate RedirItems<W>(items: seq<Item<W>>, rs: seq<Redirection<W>>) {
    AllOk(items) && ArgsOf(items) == [] && RedirsOf(items) == rs
  }

  lemma FirstTwo<W>(ts: seq<Token<W>>, i: Item<W>, more: seq<Item<W>>, rest: seq<Token<W>>)
    requires |ts| >= 2 && ItemTokens(i) == [ts[0], ts[1]] && ts[2..] == Tokens(more) + rest
    ensures ts == Tokens([i] + more) + rest
  {
    FirstItem(i, more);
    assert ts == [ts[0], ts[1]] + ts[2..];
    Assoc(ItemTokens(i), Tokens(more), rest);
  }

  lemma {:induction false} RedirsSound<W>(ts: seq<Token<W>>) returns (items: seq<Item<W>>)
    requires Redirs(ts).Got?
    ensures ts == Tokens(items) + Redirs(ts).rest && RedirItems(items, Redirs(ts).v)
    decreases |ts|
  {
    if Starts(ts, '<') || Starts(ts, '>') || Starts(ts, '+') {
      var more := RedirsSound(ts[2..]);
      var i := To(ts[0].c, ts[1].w);
      items := [i] + more;
      FirstTwo(ts, i, more, Redirs(ts[2..]).rest);
      FirstItem(i, more);
      assert ArgsOf(items) == [] + [];
    } else {
      items := [];
      assert [] + ts == ts;
    }
  }

  lemma ArgsMore<W>(ts: seq<Token<W>>, word: W, first: seq<Item<W>>, last: seq<Item<W>>, mid: seq<Token<W>>,
                    rest: seq<Token<W>>)
    requires ts != [] && ts[0] == Word(word) && ts[1..] == Tokens(first) + mid && mid == Tokens(last) + rest
    ensures ts == Tokens([Arg(word)] + (first + last)) + rest
  {
    FirstItem(Arg(word), first + last);
    TokensJoin(first, last);
    Assoc(Tokens(first), Tokens(last), rest);
    Assoc([Word(word)], Tokens(first + last), rest);
    assert ts == [ts[0]] + ts[1..];
  }

  lemma PartsMore<W>(word: W, first: seq<Item<W>>, last: seq<Item<W>>, rs: seq<Redirection<W>>)
    requires RedirItems(first, rs) && AllOk(last)
    ensures var items := [Arg(word)] + (first + last);
      AllOk(items) && ArgsOf(items) == [word] + ArgsOf(last) && RedirsOf(items) == rs + RedirsOf(last)
  {
    FirstItem(Arg(word), first + last);
    ArgsJoin(first, last);
    RedirsJoin(first, last);
    assert [] + ArgsOf(last) == ArgsOf(last) && [] + RedirsOf(first + last) == RedirsOf(first + last);
  }

  lemma {:induction false} ArgsSound<W>(ts: seq<Token<W>>, args: seq<W>, rs: seq<Redirection<W>>)
    returns (items: seq<Item<W>>)
    requires Args(ts, args, rs).Got? && |args| < MAXARGS
    ensures ts == Tokens(items) + Args(ts, args, rs).rest && AllOk(items) && |args + ArgsOf(items)| < MAXARGS
    ensures Args(ts, args, rs).v == Wrap(Exec(args + ArgsOf(items)), rs + RedirsOf(items))
    decreases |ts|
  {
    if EndsArgs(ts) {
      items := [];
      assert args + [] == args && rs + [] == rs && [] + ts == ts;
    } else {
      var word, more := ts[0].w, Redirs(ts[1..]);
      var first := RedirsSound(ts[1..]);
      var last := ArgsSound(more.rest, args + [word], rs + more.v);
      items := [Arg(word)] + (first + last);
      ArgsMore(ts, word, first, last, more.rest, Args(ts, args, rs).rest);
      PartsMore(word, first, last, more.v);
      Assoc(args, [word], ArgsOf(last));
      Assoc(rs, more.v, RedirsOf(last));
    }
  }

  // ---- putting texts together

  lemma SimpleIsText<W(!new)>(items: seq<Item<W>>)
    requires AllOk(items)
    ensures UnitText(Wrap(Exec(ArgsOf(items)), RedirsOf(items)), Tokens(items))
  {
    var c := Wrap(Exec(ArgsOf(items)), RedirsOf(items));
    WrapParts(Exec(ArgsOf(items)), RedirsOf(items));
    assert [] + RedirsOf(items) == RedirsOf(items);
    assert SimpleText(c, Tokens(items), items);
  }

  function Block<W>(y: seq<Token<W>>, z: seq<Token<W>>): seq<Token<W>> {
    [Sym('(')] + y + [Sym(')')] + z
  }

  lemma BlockParts<W>(y: seq<Token<W>>, z: seq<Token<W>>, n: nat)
    requires n == |y| + 1
    ensures var x := Block(y, z);
      0 < n < |x| && x[0] == Sym('(') && x[n] == Sym(')') && x[1..n] == y && x[n + 1..] == z
  {
  }

  lemma BlockIsText<W(!new)>(c: Cmd<W>, y: seq<Token<W>>, items: seq<Item<W>>, rs: seq<Redirection<W>>)
    requires LineText(c, y) && RedirItems(items, rs)
    ensures UnitText(Wrap(c, rs), Block(y, Tokens(items)))
  {
    var d, x, n := Wrap(c, rs), Block(y, Tokens(items)), |y| + 1;
    WrapParts(c, rs);
    PeelWrap(c, rs);
    BlockParts(y, Tokens(items), n);
    assert Outer(d)[|Outer(d)| - |rs|..] == rs;
    assert BlockText(d, x, n, items);
  }

  function Between<W>(y: seq<Token<W>>, c: char, z: seq<Token<W>>): seq<Token<W>> {
    y + [Sym(c)] + z
  }

  lemma BetweenParts<W>(y: seq<Token<W>>, c: char, z: seq<Token<W>>)
    ensures var x := Between(y, c, z); |y| < |x| && x[..|y|] == y && x[|y|] == Sym(c) && x[|y| + 1..] == z
  {
  }

  lemma BarIsText<W(!new)>(l: Cmd<W>, r: Cmd<W>, y: seq<Token<W>>, z: seq<Token<W>>)
    requires UnitText(l, y) && PipeText(r, z)
    ensures PipeText(Pipe(l, r), Between(y, '|', z))
  {
    BetweenParts(y, '|', z);
    assert BarText(Pipe(l, r), Between(y, '|', z), |y|);
  }

  lemma SemiIsText<W(!new)>(l: Cmd<W>, r: Cmd<W>, y: seq<Token<W>>, z: seq<Token<W>>)
    requires BackText(l, y) && LineText(r, z)
    ensures LineText(List(l, r), Between(y, ';', z))
  {
    BetweenParts(y, ';', z);
    assert SemiText(List(l, r), Between(y, ';', z), |y|);
  }

  lemma MarkIsText<W(!new)>(c: Cmd<W>, y: seq<Token<W>>)
    requires BackText(c, y)
    ensures BackText(Back(c), y + [Sym('&')])
  {
    var x := y + [Sym('&')];
    assert x[..|x| - 1] == y;
  }

  // ---- the parts of the parser

  /** The parser has read the text `x`. */
  ghost predicate ReadText<W(!new)>(ts: seq<Token<W>>, r: Parse<Cmd<W>, W>, x: seq<Token<W>>) {
    r.Got? && ts == x + r.rest && FewArgs(r.v)
  }

  lemma BlockSplit<W>(ts: seq<Token<W>>, y: seq<Token<W>>, rest: seq<Token<W>>, z: seq<Token<W>>, last: seq<Token<W>>)
    requires ts != [] && ts[0] == Sym('(') && ts[1..] == y + rest && Starts(rest, ')') && rest[1..] == z + last
    ensures ts == Block(y, z) + last
  {
    assert rest == [Sym(')')] + rest[1..];
    assert ts == [ts[0]] + ts[1..];
  }

  lemma BetweenSplit<W>(ts: seq<Token<W>>, y: seq<Token<W>>, rest: seq<Token<W>>, c: char, z: seq<Token<W>>,
                        last: seq<Token<W>>)
    requires ts == y + rest && Starts(rest, c) && rest[1..] == z + last
    ensures ts == Between(y, c, z) + last
  {
    assert rest == [Sym(c)] + rest[1..];
  }

  lemma SimpleSound<W(!new)>(ts: seq<Token<W>>) returns (x: seq<Token<W>>)
    requires ParseExec(ts).Got? && !Starts(ts, '(')
    ensures ReadText(ts, ParseExec(ts), x) && UnitText(ParseExec(ts).v, x)
  {
    var none: seq<W> := [];
    var rs := Redirs(ts);
    var first := RedirsSound(ts);
    var last := ArgsSound(rs.rest, none, rs.v);
    var items := first + last;
    x := Tokens(items);
    TokensJoin(first, last);
    Assoc(Tokens(first), Tokens(last), ParseExec(ts).rest);
    ArgsJoin(first, last);
    RedirsJoin(first, last);
    SimpleIsText(items);
    WrapParts(Exec(ArgsOf(items)), RedirsOf(items));
  }

  lemma {:induction false} ExecSound<W(!new)>(ts: seq<Token<W>>) returns (x: seq<Token<W>>)
    requires ParseExec(ts).Got?
    ensures ReadText(ts, ParseExec(ts), x) && UnitText(ParseExec(ts).v, x)
    decreases |ts|, 0
  {
    if Starts(ts, '(') {
      var line := ParseLine(ts[1..]);
      var y := LineSound(ts[1..]);
      var items := RedirsSound(line.rest[1..]);
      var rs := Redirs(line.rest[1..]);
      x := Block(y, Tokens(items));
      BlockSplit(ts, y, line.rest, Tokens(items), rs.rest);
      BlockIsText(line.v, y, items, rs.v);
      WrapParts(line.v, rs.v);
    } else {
      x := SimpleSound(ts);
    }
  }

  lemma {:induction false} PipeSound<W(!new)>(ts: seq<Token<W>>) returns (x: seq<Token<W>>)
    requires ParsePipe(ts).Got?
    ensures ReadText(ts, ParsePipe(ts), x) && PipeText(ParsePipe(ts).v, x)
    decreases |ts|, 1
  {
    var left := ParseExec(ts);
    x := ExecSound(ts);
    if Starts(left.rest, '|') {
      var z := PipeSound(left.rest[1..]);
      BetweenSplit(ts, x, left.rest, '|', z, ParsePipe(ts).rest);
      BarIsText(left.v, ParsePipe(left.rest[1..]).v, x, z);
      x := Between(x, '|', z);
    }
  }

  lemma {:induction false} MarksSound<W(!new)>(c: Cmd<W>, y: seq<Token<W>>, ts: seq<Token<W>>)
    returns (x: seq<Token<W>>)
    requires BackText(c, y) && FewArgs(c)
    ensures var (d, rest) := Backs(c, ts); y + ts == x + rest && BackText(d, x) && FewArgs(d)
    decreases |ts|
  {
    if Starts(ts, '&') {
      MarkIsText(c, y);
      x := MarksSound(Back(c), y + [Sym('&')], ts[1..]);
      assert y + ts == y + [Sym('&')] + ts[1..];
    } else {
      x := y;
    }
  }

  lemma {:induction false} LineSound<W(!new)>(ts: seq<Token<W>>) returns (x: seq<Token<W>>)
    requires ParseLine(ts).Got?
    ensures ReadText(ts, ParseLine(ts), x) && LineText(ParseLine(ts).v, x)
    decreases |ts|, 2
  {
    var first := ParsePipe(ts);
    var y := PipeSound(ts);
    x := MarksSound(first.v, y, first.rest);
    var (c, rest) := Backs(first.v, first.rest);
    if Starts(rest, ';') {
      var z := LineSound(rest[1..]);
      BetweenSplit(ts, x, rest, ';', z, ParseLine(ts).rest);
      SemiIsText(c, ParseLine(rest[1..]).v, x, z);
      x := Between(x, ';', z);
    }
  }

  // ---------------------------------------------------------------- every text is read

  lemma FirstTokens<W>(items: seq<Item<W>>, rest: seq<Token<W>>)
    requires items != []
    ensures Tokens(items) + rest == ItemTokens(items[0]) + (Tokens(items[1..]) + rest)
  {
    Assoc(ItemTokens(items[0]), Tokens(items[1..]), rest);
  }

  lemma {:induction false} SplitAt<W>(items: seq<Item<W>>, k: nat)
    requires k <= |items|
    ensures ArgsOf(items) == ArgsOf(items[..k]) + ArgsOf(items[k..])
    ensures RedirsOf(items) == RedirsOf(items[..k]) + RedirsOf(items[k..])
  {
    assert items == items[..k] + items[k..];
    ArgsJoin(items[..k], items[k..]);
    RedirsJoin(items[..k], items[k..]);
  }

  lemma LeadMore<W>(items: seq<Item<W>>, j: nat, k: nat)
    requires items != [] && items[0].To? && k == j + 1 <= |items|
    ensures ArgsOf(items[..k]) == ArgsOf(items[1..][..j])
    ensures RedirsOf(items[..k]) == ItemRedirs(items[0]) + RedirsOf(items[1..][..j]) && items[k..] == items[1..][j..]
  {
    assert items[..k] == [items[0]] + items[1..][..j];
    FirstItem(items[0], items[1..][..j]);
    assert [] + ArgsOf(items[1..][..j]) == ArgsOf(items[1..][..j]);
  }

  /** The redirections in front of the first argument. */
  lemma {:induction false} RedirsRead<W>(items: seq<Item<W>>, rest: seq<Token<W>>) returns (k: nat)
    requires AllOk(items) && EndsArgs(rest)
    ensures k <= |items| && ArgsOf(items[..k]) == [] && (k == |items| || items[k].Arg?)
    ensures Redirs(Tokens(items) + rest) == Got(RedirsOf(items[..k]), Tokens(items[k..]) + rest)
    decreases |items|
  {
    k := 0;
    if items == [] {
      assert [] + rest == rest;
    } else {
      var ts, tail := Tokens(items) + rest, Tokens(items[1..]) + rest;
      FirstTokens(items, rest);
      if items[0].To? {
        assert ItemOk(items[0]);
        assert ts[0] == Sym(items[0].sym) && ts[1] == Word(items[0].file) && ts[2..] == tail;
        var j := RedirsRead(items[1..], rest);
        k := j + 1;
        LeadMore(items, j, k);
      } else {
        assert ts[0] == Word(items[0].w);
      }
    }
  }

  lemma {:induction false} ArgsRead<W>(items: seq<Item<W>>, rest: seq<Token<W>>, args: seq<W>, rs: seq<Redirection<W>>)
    requires AllOk(items) && EndsArgs(rest) && |args| + |ArgsOf(items)| < MAXARGS && (items == [] || items[0].Arg?)
    ensures Args(Tokens(items) + rest, args, rs) == Got(Wrap(Exec(args + ArgsOf(items)), rs + RedirsOf(items)), rest)
    decreases |items|
  {
    if items == [] {
      assert [] + rest == rest && args + [] == args && rs + [] == rs;
    } else {
      var w, more, ts := items[0].w, items[1..], Tokens(items) + rest;
      FirstTokens(items, rest);
      assert ts[0] == Word(w) && ts[1..] == Tokens(more) + rest;
      var k := RedirsRead(more, rest);
      SplitAt(more, k);
      var lead, tail := RedirsOf(more[..k]), more[k..];
      ArgsStep(ts, args, rs, lead, Tokens(tail) + rest);
      ArgsRead(tail, rest, args + [w], rs + lead);
      assert [] + RedirsOf(more) == RedirsOf(more) && [] + ArgsOf(tail) == ArgsOf(tail);
      Assoc(args, [w], ArgsOf(tail));
      Assoc(rs, lead, RedirsOf(tail));
    }
  }

  lemma StartsWithItem<W>(items: seq<Item<W>>, rest: seq<Token<W>>)
    requires AllOk(items) && EndsArgs(rest)
    ensures !Starts(Tokens(items) + rest, '(')
  {
    if items == [] {
      assert [] + rest == rest;
    } else {
      FirstTokens(items, rest);
      assert ItemOk(items[0]);
    }
  }

  lemma SimpleRead<W(!new)>(c: Cmd<W>, x: seq<Token<W>>, items: seq<Item<W>>, rest: seq<Token<W>>)
    requires SimpleText(c, x, items) && FewArgs(c) && EndsArgs(rest)
    ensures ParseExec(x + rest) == Got(c, rest)
  {
    CoreFewArgs(c);
    StartsWithItem(items, rest);
    var k := RedirsRead(items, rest);
    SplitAt(items, k);
    var none: seq<W> := [];
    assert none + ArgsOf(items[k..]) == ArgsOf(items[k..]);
    ArgsRead(items[k..], rest, none, RedirsOf(items[..k]));
    WrapCore(c);
  }

  lemma OnlyRedirsRead<W>(items: seq<Item<W>>, rest: seq<Token<W>>)
    requires AllOk(items) && ArgsOf(items) == [] && EndsArgs(rest)
    ensures Redirs(Tokens(items) + rest) == Got(RedirsOf(items), rest)
  {
    var k := RedirsRead(items, rest);
    SplitAt(items, k);
    if k == |items| {
      assert items[..k] == items && items[k..] == [] && [] + rest == rest;
    }
  }

  lemma BlockTail<W>(x: seq<Token<W>>, n: nat, rest: seq<Token<W>>)
    requires 0 < n < |x| && x[0] == Sym('(') && x[n] == Sym(')')
    ensures Starts(x + rest, '(') && (x + rest)[1..] == x[1..n] + (x[n..] + rest)
    ensures Starts(x[n..] + rest, ')') && (x[n..] + rest)[1..] == x[n + 1..] + rest
  {
  }

  lemma BlockRead<W(!new)>(c: Cmd<W>, x: seq<Token<W>>, n: nat, items: seq<Item<W>>, rest: seq<Token<W>>)
    requires BlockText(c, x, n, items) && EndsArgs(rest)
    requires ParseLine(x[1..n] + (x[n..] + rest)) == Got(Peel(c, |RedirsOf(items)|), x[n..] + rest)
    ensures ParseExec(x + rest) == Got(c, rest)
  {
    BlockTail(x, n, rest);
    OnlyRedirsRead(items, rest);
    WrapPeel(c, |RedirsOf(items)|);
  }

  lemma {:induction false} UnitRead<W(!new)>(c: Cmd<W>, x: seq<Token<W>>, rest: seq<Token<W>>)
    requires UnitText(c, x) && FewArgs(c) && EndsArgs(rest)
    ensures ParseExec(x + rest) == Got(c, rest)
    decreases |x|, 1
  {
    if items :| SimpleText(c, x, items) {
      SimpleRead(c, x, items, rest);
    } else {
      var n: nat, items :| BlockText(c, x, n, items);
      BlockTail(x, n, rest);
      WrapPeel(c, |RedirsOf(items)|);
      LineRead(Peel(c, |RedirsOf(items)|), x[1..n], x[n..] + rest);
      BlockRead(c, x, n, items, rest);
    }
  }

  lemma BetweenTail<W>(x: seq<Token<W>>, c: char, n: nat, rest: seq<Token<W>>)
    requires n < |x| && x[n] == Sym(c)
    ensures x + rest == x[..n] + (x[n..] + rest)
    ensures Starts(x[n..] + rest, c) && (x[n..] + rest)[1..] == x[n + 1..] + rest
  {
  }

  lemma {:induction false} PipeRead<W(!new)>(c: Cmd<W>, x: seq<Token<W>>, rest: seq<Token<W>>)
    requires PipeText(c, x) && FewArgs(c) && EndsArgs(rest) && !Starts(rest, '|')
    ensures ParsePipe(x + rest) == Got(c, rest)
    decreases |x|, 2
  {
    if UnitText(c, x) {
      UnitRead(c, x, rest);
    } else {
      var n: nat :| BarText(c, x, n);
      BetweenTail(x, '|', n, rest);
      UnitRead(c.left, x[..n], x[n..] + rest);
      PipeRead(c.right, x[n + 1..], rest);
    }
  }

  /** The pipe in front of the background marks, and what is left with them. */
  lemma {:induction false} BackRead<W(!new)>(c: Cmd<W>, x: seq<Token<W>>, rest: seq<Token<W>>)
    returns (p: Cmd<W>, left: seq<Token<W>>)
    requires BackText(c, x) && FewArgs(c) && EndsArgs(rest) && !Starts(rest, '|')
    ensures ParsePipe(x + rest) == Got(p, left) && Backs(p, left) == Backs(c, rest)
    decreases |x|, 3
  {
    if PipeText(c, x) {
      PipeRead(c, x, rest);
      p, left := c, rest;
    } else {
      var n := |x| - 1;
      var more := [Sym('&')] + rest;
      assert x + rest == x[..n] + more && more[1..] == rest;
      p, left := BackRead(c.cmd, x[..n], more);
    }
  }

  lemma {:induction false} LineRead<W(!new)>(c: Cmd<W>, x: seq<Token<W>>, rest: seq<Token<W>>)
    requires LineText(c, x) && FewArgs(c) && EndsLine(rest)
    ensures ParseLine(x + rest) == Got(c, rest)
    decreases |x|, 4
  {
    if BackText(c, x) {
      var p, left := BackRead(c, x, rest);
    } else {
      var n: nat :| SemiText(c, x, n);
      BetweenTail(x, ';', n, rest);
      var p, left := BackRead(c.left, x[..n], x[n..] + rest);
      LineRead(c.right, x[n + 1..], rest);
    }
  }

  // The parser reads a list of tokens as `c` if and only if it is a text of `c` with at most nine arguments in each
  // simple command.
  lemma ParsesExactly<W(!new)>(ts: seq<Token<W>>, c: Cmd<W>)
    ensures ParseAll(ts) == Got(c, []) <==> LineText(c, ts) && FewArgs(c)
  {
    if ParseAll(ts) == Got(c, []) {
      var x := LineSound(ts);
      assert x + [] == x;
    }
    if LineText(c, ts) && FewArgs(c) {
      LineRead(c, ts, []);
      assert ts + [] == ts;
    }
  }
}
