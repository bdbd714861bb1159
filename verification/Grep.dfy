/** The line loop of user/grep.c: a fixed buffer, filled by reads that may stop anywhere. */
module Grep {
  import opened Common
  import opened Regex

  const BUFSIZE: nat := 1024

  /** The position of the first `c` in `s`, or its length. */
  function Find(s: string, c: char): (k: nat)
    ensures k <= |s| && c !in s[..k] && (k < |s| ==> s[k] == c)
  {
    if s == "" || s[0] == c then 0 else
      assert s[..Find(s[1..], c) + 1] == [s[0]] + s[1..][..Find(s[1..], c)];
      1 + Find(s[1..], c)
  }

  lemma FindIs(s: string, c: char, k: nat)
    requires k <= |s| && c !in s[..k] && (k < |s| ==> s[k] == c)
    ensures Find(s, c) == k
  {
    assert forall j | 0 <= j < k :: s[..k][j] == s[j];
    assert forall j | 0 <= j < Find(s, c) :: s[..Find(s, c)][j] == s[j];
  }

  /** The complete lines of `s` that match, in order, up to the first complete line that does not fit the buffer. */
  ghost function Selected(p: string, s: string): string {
    var k := Find(s, '\n');
    if k == |s| || k + 1 >= BUFSIZE then ""
    else (if Matches(p, s[..k]) then s[..k + 1] else "") + Selected(p, s[k + 1..])
  }

  /** All complete lines of `s` that match. */
  ghost function AllSelected(p: string, s: string): string {
    var k := Find(s, '\n');
    if k == |s| then "" else (if Matches(p, s[..k]) then s[..k + 1] else "") + AllSelected(p, s[k + 1..])
  }

  /** Every complete line has at most 1022 bytes. */
  predicate LinesFit(s: string) {
    var k := Find(s, '\n');
    k == |s| || (k + 1 < BUFSIZE && LinesFit(s[k + 1..]))
  }

  lemma FitsAfter(line: string, k: nat, r: string)
    requires |line| == k + 1 && k + 1 < BUFSIZE && line[k] == '\n' && '\n' !in line[..k] && LinesFit(r)
    ensures LinesFit(line + r)
  {
    assert (line + r)[..k] == line[..k] && (line + r)[k + 1..] == r;
    FindIs(line + r, '\n', k);
  }

  /** The length of the input up to the first complete line that does not fit. */
  function FitLen(s: string): (n: nat)
    ensures n <= |s|
  {
    var k := Find(s, '\n');
    if k == |s| || k + 1 >= BUFSIZE then 0 else k + 1 + FitLen(s[k + 1..])
  }

  function FittingPart(s: string): string {
    s[..FitLen(s)]
  }

  /** What follows the fitting part: the first complete line that does not fit and everything after it, if there is
      one. */
  function Unread(s: string): string {
    s[FitLen(s)..]
  }

  lemma Cut(s: string, a: nat, b: nat, c: nat)
    requires a + b == c <= |s|
    ensures s[a..][b..] == s[c..] && s[..a] + s[a..][..b] == s[..c]
  {
  }

  lemma FittingAfter(s: string, k: nat)
    requires k == Find(s, '\n') < |s| && k + 1 < BUFSIZE
    ensures Unread(s) == Unread(s[k + 1..])
    ensures FittingPart(s) == s[..k + 1] + FittingPart(s[k + 1..])
  {
    Cut(s, k + 1, FitLen(s[k + 1..]), FitLen(s));
  }

  lemma {:induction false} FittingPartFits(s: string)
    ensures LinesFit(FittingPart(s))
  {
    var k := Find(s, '\n');
    if k < |s| && k + 1 < BUFSIZE {
      FittingPartFits(s[k + 1..]);
      FittingAfter(s, k);
      assert s[..k + 1][..k] == s[..k];
      FitsAfter(s[..k + 1], k, FittingPart(s[k + 1..]));
    }
  }

  lemma AllSelectedLine(p: string, line: string, k: nat, r: string)
    requires |line| == k + 1 && line[k] == '\n' && '\n' !in line[..k]
    ensures AllSelected(p, line + r) == (if Matches(p, line[..k]) then line else "") + AllSelected(p, r)
  {
    var t := line + r;
    assert t[..k] == line[..k] && t[..k + 1] == line && t[k + 1..] == r;
    FindIs(t, '\n', k);
  }

  lemma FittingLine(p: string, s: string, k: nat)
    requires k == Find(s, '\n') < |s| && k + 1 < BUFSIZE
    ensures AllSelected(p, FittingPart(s)) ==
      (if Matches(p, s[..k]) then s[..k + 1] else "") + AllSelected(p, FittingPart(s[k + 1..]))
  {
    FittingAfter(s, k);
    assert s[..k + 1][..k] == s[..k];
    AllSelectedLine(p, s[..k + 1], k, FittingPart(s[k + 1..]));
  }

  // The output is exactly the matching lines before the first one that does not fit.
  lemma {:induction false} SelectedExactly(p: string, s: string)
    ensures Selected(p, s) == AllSelected(p, FittingPart(s))
  {
    var k := Find(s, '\n');
    if k < |s| && k + 1 < BUFSIZE {
      SelectedExactly(p, s[k + 1..]);
      FittingLine(p, s, k);
    }
  }

  lemma Regroup(a: string, b: string, c: string)
    ensures a + (b + c) == (a + b) + c
  {
  }

  // The lines that are lost are exactly the matching lines from the first one that does not fit.
  lemma {:induction false} LostExactly(p: string, s: string)
    ensures AllSelected(p, s) == Selected(p, s) + AllSelected(p, Unread(s))
  {
    var k := Find(s, '\n');
    if k < |s| && k + 1 < BUFSIZE {
      LostExactly(p, s[k + 1..]);
      FittingAfter(s, k);
      Regroup(if Matches(p, s[..k]) then s[..k + 1] else "", Selected(p, s[k + 1..]), AllSelected(p, Unread(s)));
    } else {
      assert s[0..] == s && Selected(p, s) == "";
    }
  }

  lemma EmptyPatternMatches(w: string)
    ensures Matches("", w)
  {
    assert In(Parse("").re, w[0..][..0]);
    assert MatchesHere("", w[0..]);
  }

  lemma {:induction false} FitsIffAllRead(s: string)
    ensures LinesFit(s) <==> Find(Unread(s), '\n') == |Unread(s)|
  {
    var k := Find(s, '\n');
    if k < |s| && k + 1 < BUFSIZE {
      FitsIffAllRead(s[k + 1..]);
      FittingAfter(s, k);
    } else {
      assert s[0..] == s;
    }
  }

  // For every pattern: no line is lost exactly if none matches from the first one that does not fit.
  lemma NoMatchLostIff(p: string, s: string)
    ensures Selected(p, s) == AllSelected(p, s) <==> AllSelected(p, Unread(s)) == ""
  {
    LostExactly(p, s);
  }

  // Every pattern gives all its matching lines exactly for inputs all of whose complete lines fit.
  lemma NoLineLostIff(s: string)
    ensures (forall p :: Selected(p, s) == AllSelected(p, s)) <==> LinesFit(s)
  {
    FitsIffAllRead(s);
    if LinesFit(s) {
      forall p ensures Selected(p, s) == AllSelected(p, s) { NoMatchLostIff(p, s); }
    } else {
      var u := Unread(s);
      NoMatchLostIff("", s);
      EmptyPatternMatches(u[..Find(u, '\n')]);
    }
  }

  // One complete line of 1023 bytes or more hides whatever follows it, matching or not.
  lemma LongLineHides(p: string, long: string, rest: string)
    requires |long| >= 1023 && '\n' !in long
    ensures Selected(p, long + "\n" + rest) == ""
    ensures !Matches(p, long) ==> AllSelected(p, long + "\n" + rest) == AllSelected(p, rest)
  {
    var line := long + "\n";
    assert line[..|long|] == long;
    AllSelectedLine(p, line, |long|, rest);
    assert (line + rest)[..|long|] == long;
    FindIs(line + rest, '\n', |long|);
  }

  // A line of 1023 bytes followed by a line that matches: nothing is printed.
  lemma MatchIsNotPrinted(long: string)
    requires long == seq(1023, _ => 'a')
    ensures Selected("b", long + "\n" + "b\n") == "" && AllSelected("b", long + "\n" + "b\n") == "b\n"
  {
    LongLineHides("b", long, "b\n");
    assert !Matches("b", long) by {
      forall i | 0 <= i <= |long| ensures !MatchesHere("b", long[i..]) { OneHere("b", long[i..]); }
    }
    assert Matches("b", "b") by {
      OneHere("b", "b"[0..]);
      assert In(Parse("").re, ""[..0]);
      assert MatchesHere("b"[1..], "b"[0..][1..]);
    }
    AllSelectedLine("b", "b\n", 1, "");
    assert "b\n" + "" == "b\n" && "b\n"[..1] == "b";
  }

  // One line from the front.
  lemma SelectLine(p: string, s: string, k: nat)
    requires k < |s| && k + 1 < BUFSIZE && '\n' !in s[..k] && s[k] == '\n'
    ensures Selected(p, s) == (if Matches(p, s[..k]) then s[..k + 1] else "") + Selected(p, s[k + 1..])
  {
    FindIs(s, '\n', k);
  }

  // No complete line is left, or the next one does not fit.
  lemma SelectNone(p: string, s: string, m: nat)
    requires m <= |s| && '\n' !in s[..m] && (m == |s| || m + 1 >= BUFSIZE)
    ensures Selected(p, s) == ""
  {
    assert forall j | 0 <= j < m :: s[..m][j] == s[j];
  }

  /** The next newline or NUL at or after `p`; true if it is a newline. */
  method Strchr(buf: array<char>, p: nat, ghost m: nat) returns (found: bool, q: nat)
    requires buf.Length == BUFSIZE && p <= m < BUFSIZE && buf[m] == NUL
    requires NUL !in buf[p..m]
    ensures p <= q <= m && '\n' !in buf[p..q]
    ensures found ==> q < m && buf[q] == '\n'
    ensures !found ==> q == m
  {
    q := p;
    while buf[q] != '\n' && buf[q] != NUL
      invariant p <= q <= m && '\n' !in buf[p..q]
      decreases m - q
    {
      assert buf[p..q + 1] == buf[p..q] + [buf[q]];
      q := q + 1;
    }
    found := buf[q] == '\n';
    if q < m { assert buf[p..m][q - p] == buf[q]; }
  }

  /** `read`: puts between 1 and `max` bytes of the input behind position `m`, or none at its end. */
  method Read(buf: array<char>, m: nat, max: nat, input: string, choice: nat) returns (n: nat)
    requires buf.Length == BUFSIZE && m + max < BUFSIZE
    modifies buf
    ensures n <= |input| && n <= max && (n == 0 <==> max == 0 || input == "")
    ensures buf[..m + n] == old(buf[..m]) + input[..n]
  {
    var limit := if max < |input| then max else |input|;
    n := if choice < 1 then 1 else choice;
    if n > limit { n := limit; }
    for i := 0 to n
      invariant buf[..m + i] == old(buf[..m]) + input[..i]
    {
      buf[m + i] := input[i];
    }
  }

  method MoveDown(buf: array<char>, p: nat, m: nat)
    requires buf.Length == BUFSIZE && p <= m <= BUFSIZE
    modifies buf
    ensures buf[..m - p] == old(buf[p..m])
  {
    for i := 0 to m - p
      invariant buf[..i] == old(buf[p..p + i])
      invariant forall j | p + i <= j < BUFSIZE :: buf[j] == old(buf[j])
    {
      buf[i] := buf[p + i];
    }
  }

  /** What is written for one line, which ends in its newline. */
  ghost function Piece(pattern: string, line: string): string
    requires line != ""
  {
    if Matches(pattern, line[..|line| - 1]) then line else ""
  }

  lemma SplitLine(pattern: string, a: string, k: nat, rest: string)
    requires k < |a| && k + 1 < BUFSIZE && '\n' !in a[..k] && a[k] == '\n'
    ensures Selected(pattern, a + rest) == Piece(pattern, a[..k + 1]) + Selected(pattern, a[k + 1..] + rest)
  {
    var s := a + rest;
    assert a[..k + 1][..k] == a[..k];
    assert s[..k] == a[..k] && s[..k + 1] == a[..k + 1] && s[k + 1..] == a[k + 1..] + rest;
    SelectLine(pattern, s, k);
  }

  /** The string that starts at `p`: the characters before the next NUL, which is at `q`. */
  method StringAt(buf: array<char>, p: nat, ghost q: nat) returns (s: string)
    requires p <= q < buf.Length && buf[q] == NUL && NUL !in buf[p..q]
    ensures s == buf[p..q]
  {
    forall j | p <= j < q ensures buf[j] != NUL { assert buf[p..q][j - p] == buf[j]; }
    var e := p;
    while buf[e] != NUL
      invariant p <= e <= q
      decreases q - e
    {
      e := e + 1;
    }
    s := buf[p..e];
  }

  /** Cuts the line off at its newline, matches it and restores the newline of a line that matches. */
  method OneLine(pattern: string, buf: array<char>, p: nat, q: nat) returns (out: string)
    requires buf.Length == BUFSIZE && p <= q < BUFSIZE && buf[q] == '\n' && NUL !in buf[p..q]
    modifies buf
    ensures out == Piece(pattern, old(buf[..])[p..q + 1])
    ensures forall j | q < j < BUFSIZE :: buf[j] == old(buf[j])
  {
    buf[q] := NUL;
    assert buf[p..q] == old(buf[p..q]);
    var line := StringAt(buf, p, q);
    assert line == old(buf[..])[p..q + 1][..q - p];
    var yes := Match(pattern, line);
    if yes {
      buf[q] := '\n';
      assert buf[p..q + 1] == old(buf[..])[p..q + 1];
      out := buf[p..q + 1];
    } else {
      out := "";
    }
  }

  /** What is left to handle: `a` from position `p` to the NUL at `m`, with the next newline, if any, at `q`. */
  ghost predicate Pending(buf: seq<char>, a: string, p: nat, q: nat, m: nat, found: bool) {
    && |buf| == BUFSIZE && p <= q <= m < BUFSIZE && buf[p..m] == a && buf[m] == NUL && NUL !in a && '\n' !in a[..q - p]
    && if found then q < m && a[q - p] == '\n' else q == m
  }

  /** Looks for the next newline. */
  method Scan(buf: array<char>, p: nat, ghost m: nat, ghost a: string) returns (found: bool, q: nat)
    requires buf.Length == BUFSIZE && p <= m < BUFSIZE && buf[p..m] == a && buf[m] == NUL && NUL !in a
    ensures Pending(buf[..], a, p, q, m, found)
  {
    found, q := Strchr(buf, p, m);
    assert buf[..][p..m] == buf[p..m] && buf[p..m][..q - p] == buf[p..q];
  }

  lemma LineParts(s: seq<char>, a: string, p: nat, q: nat, m: nat)
    requires Pending(s, a, p, q, m, true)
    ensures q < m && s[q] == '\n' && s[p..q] == a[..q - p] && s[p..q + 1] == a[..q - p + 1]
    ensures s[q + 1..m] == a[q - p + 1..]
    ensures NUL !in s[p..q] && NUL !in s[q + 1..m]
  {
  }

  lemma LineEffect(pattern: string, s: seq<char>, a: string, b: string, p: nat, q: nat, m: nat, rest: string)
    requires Pending(s, a, p, q, m, true) && b == a[q - p + 1..]
    ensures q < m && s[q] == '\n' && s[q + 1..m] == b && NUL !in b && NUL !in s[p..q]
    ensures Selected(pattern, a + rest) == Piece(pattern, s[p..q + 1]) + Selected(pattern, b + rest)
  {
    LineParts(s, a, p, q, m);
    SplitLine(pattern, a, q - p, rest);
  }

  /** Handles the line that ends at `q`. */
  method ThisLine(pattern: string, buf: array<char>, p: nat, q: nat, ghost m: nat, ghost a: string, ghost b: string,
                  ghost rest: string) returns (some: string)
    requires Pending(buf[..], a, p, q, m, true) && b == a[q - p + 1..]
    modifies buf
    ensures q < m < BUFSIZE == buf.Length && buf[q + 1..m] == b && buf[m] == NUL && NUL !in b
    ensures Selected(pattern, a + rest) == some + Selected(pattern, b + rest)
  {
    ghost var s := buf[..];
    LineEffect(pattern, s, a, b, p, q, m, rest);
    assert buf[p..q] == s[p..q];
    some := OneLine(pattern, buf, p, q);
    assert buf[q + 1..m] == s[q + 1..m];
  }

  /** Handles the lines that are complete in the first `m` bytes; the rest starts at `p`. */
  method Lines(pattern: string, buf: array<char>, m: nat, ghost rest: string) returns (out: string, p: nat)
    requires buf.Length == BUFSIZE && m < BUFSIZE && NUL !in buf[..m]
    modifies buf
    ensures p <= m && '\n' !in buf[p..m] && NUL !in buf[p..m]
    ensures Selected(pattern, old(buf[..m]) + rest) == out + Selected(pattern, buf[p..m] + rest)
  {
    ghost var a := buf[..m];
    ghost var whole := Selected(pattern, a + rest);
    buf[m] := NUL;
    assert buf[0..m] == a;
    p, out := 0, "";
    var found, q := Scan(buf, p, m, a);
    while found
      invariant Pending(buf[..], a, p, q, m, found)
      invariant whole == out + Selected(pattern, a + rest)
      decreases m - p
    {
      ghost var b := a[q - p + 1..];
      var some := ThisLine(pattern, buf, p, q, m, a, b, rest);
      Regroup(out, some, Selected(pattern, b + rest));
      a, out, p := b, out + some, q + 1;
      found, q := Scan(buf, p, m, a);
    }
    assert buf[..][p..m] == buf[p..m] && a[..q - p] == a;
  }

  lemma JoinInput(before: string, input: string, n: nat)
    requires n <= |input| && NUL !in before && NUL !in input
    ensures before + input == (before + input[..n]) + input[n..] && NUL !in before + input[..n]
    ensures n == 0 ==> before + input[..n] == before
  {
  }

  method Handle(pattern: string, buf: array<char>, m: nat, ghost rest: string) returns (some: string, r: nat)
    requires buf.Length == BUFSIZE && m < BUFSIZE && NUL !in buf[..m]
    modifies buf
    ensures r < BUFSIZE && NUL !in buf[..r] && '\n' !in buf[..r]
    ensures Selected(pattern, old(buf[..m]) + rest) == some + Selected(pattern, buf[..r] + rest)
  {
    var p;
    some, p := Lines(pattern, buf, m, rest);
    MoveDown(buf, p, m);
    r := m - p;
  }

  /** One read and what follows it. */
  method Round(pattern: string, buf: array<char>, m: nat, input: string, choice: nat)
    returns (n: nat, some: string, r: nat)
    requires buf.Length == BUFSIZE && m < BUFSIZE && NUL !in input && NUL !in buf[..m] && '\n' !in buf[..m]
    modifies buf
    ensures r < BUFSIZE && n <= |input| && NUL !in buf[..r] && '\n' !in buf[..r]
    ensures Selected(pattern, old(buf[..m]) + input) == some + Selected(pattern, buf[..r] + input[n..])
    ensures n == 0 ==> r == m && some == "" && (input == "" || m + 1 == BUFSIZE)
  {
    some, r := "", m;
    ghost var before := buf[..m];
    n := Read(buf, m, BUFSIZE - m - 1, input, choice);
    ghost var a, rest := before + input[..n], input[n..];
    JoinInput(before, input, n);
    assert buf[..m + n] == a && before + input == a + rest;
    if n > 0 {
      some, r := Handle(pattern, buf, m + n, rest);
    }
  }

  lemma NothingMore(pattern: string, kept: string, rest: string)
    requires '\n' !in kept && (rest == "" || |kept| + 1 == BUFSIZE)
    ensures Selected(pattern, kept + rest) == ""
  {
    assert (kept + rest)[..|kept|] == kept;
    SelectNone(pattern, kept + rest, |kept|);
  }

  // However the reads split the input, the complete matching lines come out in order, up to the first line that is too
  // long for the buffer.
  method Grep(pattern: string, input: string, buf: array<char>, choices: seq<nat>) returns (out: string)
    requires buf.Length == BUFSIZE && NUL !in input
    modifies buf
    ensures out == Selected(pattern, input)
  {
    out := "";
    var m, calls, rest := 0, 0, input;
    ghost var all, todo := Selected(pattern, input), input;
    assert buf[..0] + input == input;
    while true
      invariant 0 <= m < BUFSIZE && 0 <= calls && NUL !in rest
      invariant '\n' !in buf[..m] && NUL !in buf[..m]
      invariant all == out + Selected(pattern, todo) && todo == buf[..m] + rest
      decreases |rest|
    {
      var n, some, r := Round(pattern, buf, m, rest, if calls < |choices| then choices[calls] else 0);
      if n == 0 {
        NothingMore(pattern, buf[..m], rest);
        break;
      }
      todo := buf[..r] + rest[n..];
      Regroup(out, some, Selected(pattern, todo));
      calls, m, rest, out := calls + 1, r, rest[n..], out + some;
    }
  }
}
