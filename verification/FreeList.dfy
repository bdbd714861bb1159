/** The address-ordered free list of user/umalloc.c as a value.

Addresses count in units of one `Header`.  A list starts with the `base` header, which has
size 0 and the lowest address; its last block points back to `base`.
*/
module FreeList {

  datatype Blk = Blk(addr: int, size: nat)

  /** Address order with a gap after every block: no two free blocks overlap or touch. */
  ghost predicate Ordered(fl: seq<Blk>) {
    forall i, j :: 0 <= i < j < |fl| ==> fl[i].addr + fl[i].size < fl[j].addr
  }

  ghost predicate WellFormed(base: int, fl: seq<Blk>) {
    && |fl| > 0 && fl[0] == Blk(base, 0)
    && Ordered(fl)
    && (forall i :: 1 <= i < |fl| ==> fl[i].size >= 1)
  }

  predicate Holds(b: Blk, x: int) {
    b.addr <= x < b.addr + b.size
  }

  /** Unit `x` belongs to a free block. */
  ghost predicate Covers(fl: seq<Blk>, x: int) {
    exists i :: 0 <= i < |fl| && Holds(fl[i], x)
  }

  /** Block `b` shares no unit with the list. */
  ghost predicate Apart(fl: seq<Blk>, b: Blk) {
    forall i :: 0 <= i < |fl| ==> fl[i].addr + fl[i].size <= b.addr || b.addr + b.size <= fl[i].addr
  }

  function Next(fl: seq<Blk>, i: nat): nat
    requires i < |fl|
  {
    if i + 1 == |fl| then 0 else i + 1
  }

  /** `b` goes between list positions `k` and `k + 1`. */
  ghost predicate Fits(fl: seq<Blk>, k: nat, b: Blk) {
    && k < |fl| && fl[k].addr < b.addr
    && (k + 1 < |fl| ==> b.addr < fl[k + 1].addr)
  }

  /** `free`: merge with the upper neighbour if it touches, then with the lower one if that touches. */
  function MergeUp(fl: seq<Blk>, k: nat, b: Blk): (Blk, seq<Blk>)
    requires k < |fl|
  {
    if k + 1 < |fl| && b.addr + b.size == fl[k + 1].addr
    then (Blk(b.addr, b.size + fl[k + 1].size), fl[k + 2..])
    else (b, fl[k + 1..])
  }

  function Insert(fl: seq<Blk>, k: nat, b: Blk): seq<Blk>
    requires k < |fl|
  {
    var (c, rest) := MergeUp(fl, k, b);
    if fl[k].addr + fl[k].size == b.addr
    then fl[..k] + [Blk(fl[k].addr, fl[k].size + c.size)] + rest
    else fl[..k + 1] + [c] + rest
  }

  /** `malloc` from the block at position `k`: unlink an exact fit, else cut `n` units off its end. */
  function Take(fl: seq<Blk>, k: nat, n: nat): (r: (seq<Blk>, int))
    requires k < |fl| && n <= fl[k].size
    ensures r.1 + n == fl[k].addr + fl[k].size
  {
    if fl[k].size == n then (fl[..k] + fl[k + 1..], fl[k].addr)
    else (fl[k := Blk(fl[k].addr, fl[k].size - n)], fl[k].addr + fl[k].size - n)
  }

  // ---------------------------------------------------------------- lists in pieces

  lemma OrderedJoin(a: seq<Blk>, b: seq<Blk>)
    requires Ordered(a) && Ordered(b)
    requires a != [] && b != [] ==> a[|a| - 1].addr + a[|a| - 1].size < b[0].addr
    ensures Ordered(a + b)
  {
    var r := a + b;
    forall i, j | 0 <= i < j < |r|
      ensures r[i].addr + r[i].size < r[j].addr
    {
      if i < |a| <= j {
        assert i < |a| - 1 ==> a[i].addr + a[i].size < a[|a| - 1].addr;
        assert j > |a| ==> b[0].addr + b[0].size < b[j - |a|].addr;
      }
    }
  }

  lemma CoversJoin(a: seq<Blk>, b: seq<Blk>, x: int)
    ensures Covers(a + b, x) <==> Covers(a, x) || Covers(b, x)
  {
    var r := a + b;
    if Covers(a, x) {
      var i :| 0 <= i < |a| && Holds(a[i], x);
      assert Holds(r[i], x);
    }
    if Covers(b, x) {
      var i :| 0 <= i < |b| && Holds(b[i], x);
      assert Holds(r[|a| + i], x);
    }
  }

  lemma CoversOne(b: Blk, x: int)
    ensures Covers([b], x) <==> Holds(b, x)
  {
    assert [b][0] == b;
  }

  // ---------------------------------------------------------------- free

  lemma MergeUpFacts(fl: seq<Blk>, k: nat, b: Blk)
    requires Ordered(fl) && Fits(fl, k, b) && Apart(fl, b) && b.size >= 1
    requires forall i :: 1 <= i < |fl| ==> fl[i].size >= 1
    ensures var (c, rest) := MergeUp(fl, k, b);
      && c.addr == b.addr && c.size >= 1 && Ordered(rest) && (rest != [] ==> c.addr + c.size < rest[0].addr)
      && (forall i :: 0 <= i < |rest| ==> rest[i].size >= 1)
  {
  }

  lemma JoinAround(pre: seq<Blk>, m: Blk, rest: seq<Blk>)
    requires Ordered(pre) && Ordered(rest)
    requires pre != [] ==> pre[|pre| - 1].addr + pre[|pre| - 1].size < m.addr
    requires rest != [] ==> m.addr + m.size < rest[0].addr
    ensures Ordered(pre + [m] + rest)
  {
    OrderedJoin(pre, [m]);
    OrderedJoin(pre + [m], rest);
  }

  lemma PrefixOrdered(fl: seq<Blk>, k: nat)
    requires Ordered(fl) && k <= |fl|
    ensures Ordered(fl[..k])
  {
  }

  lemma InsertOrdered(fl: seq<Blk>, k: nat, b: Blk)
    requires Ordered(fl) && Fits(fl, k, b) && Apart(fl, b) && b.size >= 1
    requires forall i :: 1 <= i < |fl| ==> fl[i].size >= 1
    ensures Ordered(Insert(fl, k, b))
  {
    MergeUpFacts(fl, k, b);
    var (c, rest) := MergeUp(fl, k, b);
    PrefixOrdered(fl, k);
    PrefixOrdered(fl, k + 1);
    if fl[k].addr + fl[k].size == b.addr {
      JoinAround(fl[..k], Blk(fl[k].addr, fl[k].size + c.size), rest);
    } else {
      JoinAround(fl[..k + 1], c, rest);
    }
  }

  // Freeing keeps the list in address order and free of touching blocks.
  lemma InsertWellFormed(base: int, fl: seq<Blk>, k: nat, b: Blk)
    requires WellFormed(base, fl) && Fits(fl, k, b) && Apart(fl, b) && b.size >= 1
    ensures WellFormed(base, Insert(fl, k, b))
  {
    InsertOrdered(fl, k, b);
    MergeUpFacts(fl, k, b);
  }

  lemma MergeUpCovers(fl: seq<Blk>, k: nat, b: Blk, x: int)
    requires k < |fl|
    ensures var (c, rest) := MergeUp(fl, k, b);
      Holds(c, x) || Covers(rest, x) <==> Holds(b, x) || Covers(fl[k + 1..], x)
  {
    if k + 1 < |fl| {
      assert fl[k + 1..] == [fl[k + 1]] + fl[k + 2..];
      CoversJoin([fl[k + 1]], fl[k + 2..], x);
      CoversOne(fl[k + 1], x);
    }
  }

  // Freeing a block adds exactly its units.
  lemma InsertCovers(fl: seq<Blk>, k: nat, b: Blk, x: int)
    requires k < |fl|
    ensures Covers(Insert(fl, k, b), x) <==> Covers(fl, x) || Holds(b, x)
  {
    MergeUpCovers(fl, k, b, x);
    var (c, rest) := MergeUp(fl, k, b);
    assert fl == fl[..k + 1] + fl[k + 1..];
    CoversJoin(fl[..k + 1], fl[k + 1..], x);
    if fl[k].addr + fl[k].size == b.addr {
      var m := Blk(fl[k].addr, fl[k].size + c.size);
      CoversJoin(fl[..k] + [m], rest, x);
      CoversJoin(fl[..k], [m], x);
      CoversOne(m, x);
      assert fl[..k + 1] == fl[..k] + [fl[k]];
      CoversJoin(fl[..k], [fl[k]], x);
      CoversOne(fl[k], x);
    } else {
      CoversJoin(fl[..k + 1] + [c], rest, x);
      CoversJoin(fl[..k + 1], [c], x);
      CoversOne(c, x);
    }
  }

  // ---------------------------------------------------------------- malloc

  lemma TakeWellFormed(base: int, fl: seq<Blk>, k: nat, n: nat)
    requires WellFormed(base, fl) && k < |fl| && 1 <= n <= fl[k].size
    ensures WellFormed(base, Take(fl, k, n).0)
  {
  }

  lemma OthersMiss(fl: seq<Blk>, k: nat, x: int)
    requires Ordered(fl) && k < |fl| && Holds(fl[k], x)
    ensures !Covers(fl[..k], x) && !Covers(fl[k + 1..], x)
  {
    forall i | 0 <= i < |fl| && i != k
      ensures !Holds(fl[i], x)
    {
      assert i < k ==> fl[i].addr + fl[i].size < fl[k].addr;
      assert i > k ==> fl[k].addr + fl[k].size < fl[i].addr;
    }
  }

  lemma CoversAround(pre: seq<Blk>, m: Blk, rest: seq<Blk>, x: int)
    ensures Covers(pre + [m] + rest, x) <==> Covers(pre, x) || Holds(m, x) || Covers(rest, x)
  {
    CoversJoin(pre + [m], rest, x);
    CoversJoin(pre, [m], x);
    CoversOne(m, x);
  }

  // Allocating removes exactly the units of the block handed out, which were free.
  lemma TakeCovers(base: int, fl: seq<Blk>, k: nat, n: nat, x: int)
    requires WellFormed(base, fl) && k < |fl| && 1 <= n <= fl[k].size
    ensures var (r, a) := Take(fl, k, n);
      && (Covers(r, x) <==> Covers(fl, x) && !Holds(Blk(a, n), x))
      && (Holds(Blk(a, n), x) ==> Covers(fl, x))
  {
    var (r, a) := Take(fl, k, n);
    var pre, post := fl[..k], fl[k + 1..];
    assert fl == pre + [fl[k]] + post;
    CoversAround(pre, fl[k], post, x);
    if Holds(fl[k], x) { OthersMiss(fl, k, x); }
    if fl[k].size == n {
      CoversJoin(pre, post, x);
    } else {
      assert r == pre + [r[k]] + post;
      CoversAround(pre, r[k], post, x);
    }
  }
}
