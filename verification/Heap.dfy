/** The K&R allocator of user/umalloc.c on mutable headers.

Header memory is the pair of maps `ptr` and `size`; address 0 is the null pointer.  The ghost
fields give the value of the structure: `fl` is the circular list cut open before `base`,
`live` holds the blocks handed out by `Malloc`, and `core` is the set of units that `sbrk`
has supplied.  What `sbrk` would answer is a parameter of `Malloc`.
*/
module Heap {
  import opened Common
  import opened FreeList

  const HEADER_BYTES: nat := 16

  function Units(nbytes: nat): nat {
    (nbytes + HEADER_BYTES - 1) / HEADER_BYTES + 1
  }

  // The block handed out has room for the request behind its header, and less than one unit to spare.
  lemma UnitsSuffice(nbytes: nat)
    ensures nbytes <= (Units(nbytes) - 1) * 16 < nbytes + 16
  {
  }

  ghost predicate LinkedAt(fl: seq<Blk>, ptr: map<int, int>, size: map<int, nat>, i: int)
    requires 0 <= i < |fl|
  {
    && fl[i].addr in ptr && ptr[fl[i].addr] == fl[Next(fl, i)].addr
    && fl[i].addr in size && size[fl[i].addr] == fl[i].size
  }

  /** The headers in memory form the circle `fl`. */
  ghost predicate Linked(fl: seq<Blk>, ptr: map<int, int>, size: map<int, nat>) {
    forall i :: 0 <= i < |fl| ==> LinkedAt(fl, ptr, size, i)
  }

  /** Unit `x` belongs to a live block. */
  ghost predicate InLive(live: set<Blk>, x: int) {
    exists b :: b in live && Holds(b, x)
  }

  ghost predicate LiveApart(live: set<Blk>) {
    forall b, c :: b in live && c in live && b != c ==> b.addr + b.size <= c.addr || c.addr + c.size <= b.addr
  }

  /** Every supplied unit is in exactly one free block or in exactly one live block, and nothing else is. */
  ghost predicate Partition(fl: seq<Blk>, live: set<Blk>, core: set<int>) {
    && (forall x {:trigger Covers(fl, x)} {:trigger InLive(live, x)} :: x in core <==> Covers(fl, x) || InLive(live, x))
    && (forall x :: !(Covers(fl, x) && InLive(live, x)))
    && LiveApart(live)
  }

  /** Live blocks lie above `base` and their headers still hold their size. */
  ghost predicate LiveOk(base: int, live: set<Blk>, size: map<int, nat>) {
    forall b :: b in live ==> b.addr > base && b.size >= 1 && b.addr in size && size[b.addr] == b.size
  }

  ghost predicate NewAddr(live: set<Blk>, a: int) {
    forall b :: b in live ==> b.addr != a
  }

  function Range(a: int, n: nat): (r: set<int>)
    ensures forall x :: x in r <==> Holds(Blk(a, n), x)
  {
    set x | a <= x < a + n && Holds(Blk(a, n), x)
  }

  // A block that shares no unit with the free blocks is apart from each of them.
  lemma ApartIfDisjoint(base: int, fl: seq<Blk>, b: Blk)
    requires WellFormed(base, fl) && b.size >= 1 && b.addr > base
    requires forall x :: Holds(b, x) ==> !Covers(fl, x)
    ensures Apart(fl, b)
  {
    forall i | 0 <= i < |fl|
      ensures fl[i].addr + fl[i].size <= b.addr || b.addr + b.size <= fl[i].addr
    {
      var x := if fl[i].addr < b.addr then b.addr else fl[i].addr;
      if !(fl[i].addr + fl[i].size <= b.addr || b.addr + b.size <= fl[i].addr) {
        assert Holds(b, x) && Holds(fl[i], x);
      }
    }
  }

  // ---------------------------------------------------------------- relinking

  ghost predicate DistinctAddrs(fl: seq<Blk>) {
    forall i, j :: 0 <= i < j < |fl| ==> fl[i].addr != fl[j].addr
  }

  function Link(fl: seq<Blk>, k: nat, b: Blk): seq<Blk>
    requires k < |fl|
  {
    fl[..k + 1] + [b] + fl[k + 1..]
  }

  function Merge(fl: seq<Blk>, j: nat): seq<Blk>
    requires j + 1 < |fl|
  {
    fl[..j] + [Blk(fl[j].addr, fl[j].size + fl[j + 1].size)] + fl[j + 2..]
  }

  lemma InsertInSteps(fl: seq<Blk>, k: nat, b: Blk)
    requires k < |fl|
    ensures var f1 := Link(fl, k, b);
      var f2 := if k + 1 < |fl| && b.addr + b.size == fl[k + 1].addr then Merge(f1, k + 1) else f1;
      |f2| > k + 1 && f2[k] == fl[k] && f2[k + 1].addr == b.addr &&
      Insert(fl, k, b) == if fl[k].addr + fl[k].size == b.addr then Merge(f2, k) else f2
  {
    var f1 := Link(fl, k, b);
    var (c, rest) := MergeUp(fl, k, b);
    var f2 := if k + 1 < |fl| && b.addr + b.size == fl[k + 1].addr then Merge(f1, k + 1) else f1;
    assert f2 == fl[..k + 1] + [c] + rest by {
      if k + 1 < |fl| && b.addr + b.size == fl[k + 1].addr {
        assert f1[..k + 1] == fl[..k + 1] && f1[k + 1] == b && f1[k + 2] == fl[k + 1] && f1[k + 3..] == fl[k + 2..];
      }
    }
    assert f2[..k] == fl[..k] && f2[k] == fl[k] && f2[k + 1] == c && f2[k + 2..] == rest;
  }

  lemma LinkLinked(fl: seq<Blk>, k: nat, b: Blk, ptr: map<int, int>, size: map<int, nat>)
    requires k < |fl| && DistinctAddrs(Link(fl, k, b)) && Linked(fl, ptr, size)
    requires b.addr in size && size[b.addr] == b.size
    ensures LinkedAt(fl, ptr, size, k)
    ensures Linked(Link(fl, k, b), ptr[b.addr := ptr[fl[k].addr]][fl[k].addr := b.addr], size)
  {
    assert LinkedAt(fl, ptr, size, k);
    var r := Link(fl, k, b);
    var ptr' := ptr[b.addr := ptr[fl[k].addr]][fl[k].addr := b.addr];
    forall i | 0 <= i < |r|
      ensures LinkedAt(r, ptr', size, i)
    {
      assert r[k] == fl[k] && r[k + 1] == b;
      if i < k {
        assert LinkedAt(fl, ptr, size, i);
        assert r[i].addr != r[k].addr && r[i].addr != r[k + 1].addr;
      } else if i > k + 1 {
        assert LinkedAt(fl, ptr, size, i - 1);
        assert r[k].addr != r[i].addr && r[k + 1].addr != r[i].addr;
      }
    }
  }

  lemma MergeLinked(fl: seq<Blk>, j: nat, ptr: map<int, int>, size: map<int, nat>)
    requires j + 1 < |fl| && DistinctAddrs(fl) && Linked(fl, ptr, size)
    ensures LinkedAt(fl, ptr, size, j + 1)
    ensures Linked(Merge(fl, j), ptr[fl[j].addr := ptr[fl[j + 1].addr]],
                   size[fl[j].addr := fl[j].size + fl[j + 1].size])
    ensures DistinctAddrs(Merge(fl, j))
  {
    assert LinkedAt(fl, ptr, size, j + 1);
    var r := Merge(fl, j);
    var ptr' := ptr[fl[j].addr := ptr[fl[j + 1].addr]];
    var size' := size[fl[j].addr := fl[j].size + fl[j + 1].size];
    forall i | 0 <= i < |r|
      ensures LinkedAt(r, ptr', size', i)
    {
      if i < j {
        assert LinkedAt(fl, ptr, size, i);
      } else if i > j {
        assert LinkedAt(fl, ptr, size, i + 1);
      }
    }
    assert forall i :: 0 <= i < |r| ==> r[i].addr == fl[if i <= j then i else i + 1].addr;
  }

  lemma LinkDistinct(fl: seq<Blk>, k: nat, b: Blk)
    requires Ordered(fl) && Fits(fl, k, b)
    ensures DistinctAddrs(Link(fl, k, b))
  {
    var r := Link(fl, k, b);
    forall i | 0 <= i < |fl|
      ensures if i <= k then fl[i].addr < b.addr else b.addr < fl[i].addr
    {
      assert i < k ==> fl[i].addr + fl[i].size < fl[k].addr;
      assert i > k + 1 ==> fl[k + 1].addr + fl[k + 1].size < fl[i].addr;
    }
    forall i, j | 0 <= i < j < |r|
      ensures r[i].addr != r[j].addr
    {
      assert r[i] == (if i <= k then fl[i] else if i == k + 1 then b else fl[i - 1]);
      assert r[j] == (if j <= k then fl[j] else if j == k + 1 then b else fl[j - 1]);
    }
  }

  /** The headers after the stores of `free`, which found that `b` goes behind the header at `p`. */
  function UpHeaders(p: int, b: Blk, ptr: map<int, int>, size: map<int, nat>): (map<int, int>, map<int, nat>)
    requires p in ptr && ptr[p] in ptr && ptr[p] in size
  {
    if b.addr + b.size == ptr[p]
    then (ptr[b.addr := ptr[ptr[p]]], size[b.addr := b.size + size[ptr[p]]])
    else (ptr[b.addr := ptr[p]], size)
  }

  function FreeHeaders(p: int, b: Blk, ptr: map<int, int>, size: map<int, nat>): (map<int, int>, map<int, nat>)
    requires p in ptr && ptr[p] in ptr && ptr[p] in size && p in size && b.addr in size
  {
    var (ptr1, size1) := UpHeaders(p, b, ptr, size);
    if p + size[p] == b.addr then (ptr1[p := ptr1[b.addr]], size1[p := size[p] + size1[b.addr]])
    else (ptr1[p := b.addr], size1)
  }

  ghost predicate Touches(fl: seq<Blk>, k: nat, b: Blk) {
    k + 1 < |fl| && b.addr + b.size == fl[k + 1].addr
  }

  lemma UpLinked(base: int, fl: seq<Blk>, k: nat, b: Blk, ptr: map<int, int>, size: map<int, nat>)
    returns (f2: seq<Blk>)
    requires WellFormed(base, fl) && Linked(fl, ptr, size) && Fits(fl, k, b)
    requires b.addr in size && size[b.addr] == b.size
    ensures LinkedAt(fl, ptr, size, k) && LinkedAt(fl, ptr, size, Next(fl, k))
    ensures var (ptr1, size1) := UpHeaders(fl[k].addr, b, ptr, size);
      Linked(f2, ptr1[fl[k].addr := b.addr], size1)
    ensures DistinctAddrs(f2) && f2 == if Touches(fl, k, b) then Merge(Link(fl, k, b), k + 1) else Link(fl, k, b)
  {
    assert LinkedAt(fl, ptr, size, k) && LinkedAt(fl, ptr, size, Next(fl, k));
    var p, nx := fl[k].addr, ptr[fl[k].addr];
    LinkDistinct(fl, k, b);
    LinkLinked(fl, k, b, ptr, size);
    f2 := Link(fl, k, b);
    var ptr1 := ptr[b.addr := nx][p := b.addr];
    if b.addr + b.size == nx {
      assert k + 1 < |fl|;
      assert f2[k + 1] == b && f2[k + 2] == fl[k + 1] && f2[k] == fl[k];
      MergeLinked(f2, k + 1, ptr1, size);
      f2 := Merge(f2, k + 1);
      assert ptr1[b.addr := ptr1[nx]] == ptr[b.addr := ptr[nx]][p := b.addr];
    }
  }

  lemma DownLinked(fl: seq<Blk>, f2: seq<Blk>, k: nat, b: Blk, ptr: map<int, int>, size: map<int, nat>)
    requires k < |fl| && b.addr in size && LinkedAt(fl, ptr, size, k) && LinkedAt(fl, ptr, size, Next(fl, k))
    requires |f2| > k + 1 && f2[k] == fl[k] && f2[k + 1].addr == b.addr && DistinctAddrs(f2)
    requires Linked(f2, UpHeaders(fl[k].addr, b, ptr, size).0[fl[k].addr := b.addr],
                    UpHeaders(fl[k].addr, b, ptr, size).1)
    ensures var (ptr', size') := FreeHeaders(fl[k].addr, b, ptr, size);
      Linked(if fl[k].addr + fl[k].size == b.addr then Merge(f2, k) else f2, ptr', size')
  {
    var p := fl[k].addr;
    var (ptr1, size1) := UpHeaders(p, b, ptr, size);
    assert f2[k].addr != f2[k + 1].addr;
    if p + fl[k].size == b.addr {
      var ptr2 := ptr1[p := b.addr];
      MergeLinked(f2, k, ptr2, size1);
      assert ptr2[p := ptr2[b.addr]] == ptr1[p := ptr1[b.addr]];
    }
  }

  lemma FreeHeadersLinked(base: int, fl: seq<Blk>, k: nat, b: Blk, ptr: map<int, int>, size: map<int, nat>)
    requires WellFormed(base, fl) && Linked(fl, ptr, size) && Fits(fl, k, b)
    requires b.addr in size && size[b.addr] == b.size
    ensures LinkedAt(fl, ptr, size, k) && LinkedAt(fl, ptr, size, Next(fl, k))
    ensures var (ptr', size') := FreeHeaders(fl[k].addr, b, ptr, size);
      Linked(Insert(fl, k, b), ptr', size')
    ensures |Insert(fl, k, b)| > k && Insert(fl, k, b)[k].addr == fl[k].addr
  {
    var f2 := UpLinked(base, fl, k, b, ptr, size);
    InsertInSteps(fl, k, b);
    DownLinked(fl, f2, k, b, ptr, size);
  }

  lemma OrderedDistinct(fl: seq<Blk>)
    requires Ordered(fl)
    ensures DistinctAddrs(fl)
  {
    forall i, j | 0 <= i < j < |fl|
      ensures fl[i].addr != fl[j].addr
    {
      assert fl[i].addr + fl[i].size < fl[j].addr;
    }
  }

  // Unlinking an exact fit.
  lemma UnlinkLinked(fl: seq<Blk>, k: nat, ptr: map<int, int>, size: map<int, nat>)
    requires DistinctAddrs(fl) && Linked(fl, ptr, size) && 1 <= k < |fl|
    ensures LinkedAt(fl, ptr, size, k)
    ensures Linked(fl[..k] + fl[k + 1..], ptr[fl[k - 1].addr := ptr[fl[k].addr]], size)
  {
    assert LinkedAt(fl, ptr, size, k);
    var r := fl[..k] + fl[k + 1..];
    var ptr' := ptr[fl[k - 1].addr := ptr[fl[k].addr]];
    forall i | 0 <= i < |r|
      ensures LinkedAt(r, ptr', size, i)
    {
      if i < k {
        assert LinkedAt(fl, ptr, size, i);
        assert i < k - 1 ==> fl[i].addr != fl[k - 1].addr;
      } else {
        assert LinkedAt(fl, ptr, size, i + 1);
        assert fl[k - 1].addr != fl[i + 1].addr;
      }
    }
  }

  // Cutting the end off a larger block.
  lemma CutLinked(base: int, fl: seq<Blk>, k: nat, n: nat, ptr: map<int, int>, size: map<int, nat>)
    requires WellFormed(base, fl) && Linked(fl, ptr, size) && k < |fl| && 1 <= n < fl[k].size
    ensures var left := fl[k].size - n;
      Linked(fl[k := Blk(fl[k].addr, left)], ptr, size[fl[k].addr := left][fl[k].addr + left := n])
  {
    var left := fl[k].size - n;
    var r, size' := fl[k := Blk(fl[k].addr, left)], size[fl[k].addr := left][fl[k].addr + left := n];
    forall i | 0 <= i < |r|
      ensures LinkedAt(r, ptr, size', i)
    {
      assert LinkedAt(fl, ptr, size, i);
      if i < k {
        assert fl[i].addr + fl[i].size < fl[k].addr;
      } else if i > k {
        assert fl[k].addr + fl[k].size < fl[i].addr;
      }
    }
  }

  // ---------------------------------------------------------------- searching

  /** The test on which the search of `free` stops, at header `p` with successor `nx`. */
  predicate Stops(p: int, nx: int, bp: int) {
    (bp > p && bp < nx) || (p >= nx && (bp > p || bp < nx))
  }

  ghost function Position(base: int, fl: seq<Blk>, bp: int): (k: nat)
    requires |fl| > 0 && fl[0].addr == base < bp
    ensures k < |fl| && fl[k].addr < bp
    ensures forall i :: k < i < |fl| ==> fl[i].addr >= bp
  {
    var n := |fl| - 1;
    if fl[n].addr < bp then n else Position(base, fl[..n], bp)
  }

  // Going round the circle, the search stops at the block's place and nowhere else.
  lemma StopsAtPosition(base: int, fl: seq<Blk>, k: nat, b: Blk, i: nat)
    requires WellFormed(base, fl) && Fits(fl, k, b) && i < |fl| && b.addr > base
    ensures Stops(fl[i].addr, fl[Next(fl, i)].addr, b.addr) <==> i == k
  {
    if i < k {
      assert i + 1 < k ==> fl[i + 1].addr + fl[i + 1].size < fl[k].addr;
      assert fl[i].addr + fl[i].size < fl[i + 1].addr;
    } else if i > k {
      assert i > k + 1 ==> fl[k + 1].addr + fl[k + 1].size < fl[i].addr;
      assert fl[0].addr + fl[0].size < fl[i].addr;
    }
  }

  /** How far position `i` is from position `k` in a circle of `n`. */
  function Ahead(i: nat, k: nat, n: nat): int {
    if i <= k then k - i else k + n - i
  }

  // ---------------------------------------------------------------- ownership of units

  lemma InLiveSplit(live: set<Blk>, b: Blk, x: int)
    ensures InLive(live + {b}, x) <==> Holds(b, x) || InLive(live, x)
  {
  }

  lemma OthersNotLive(live: set<Blk>, b: Blk, x: int)
    requires LiveApart(live) && b in live && Holds(b, x)
    ensures !InLive(live - {b}, x)
  {
  }

  // Freeing a live block hands its units, and no others, back to the free list.
  lemma FreePartition(fl: seq<Blk>, k: nat, live: set<Blk>, core: set<int>, b: Blk)
    requires Partition(fl, live, core) && b in live && k < |fl|
    ensures Partition(Insert(fl, k, b), live - {b}, core)
  {
    var fl', live' := Insert(fl, k, b), live - {b};
    assert live' + {b} == live;
    forall x
      ensures x in core <==> Covers(fl', x) || InLive(live', x)
      ensures !(Covers(fl', x) && InLive(live', x))
    {
      InsertCovers(fl, k, b, x);
      InLiveSplit(live', b, x);
      if Holds(b, x) { OthersNotLive(live, b, x); }
    }
  }

  ghost predicate Unsupplied(b: Blk, core: set<int>) {
    forall x :: Holds(b, x) ==> x !in core
  }

  // A region that sbrk supplied is added to the free units.
  lemma GrowPartition(fl: seq<Blk>, k: nat, live: set<Blk>, core: set<int>, b: Blk)
    requires Partition(fl, live, core) && k < |fl|
    requires Unsupplied(b, core)
    ensures Partition(Insert(fl, k, b), live, core + Range(b.addr, b.size))
  {
    forall x
      ensures x in core + Range(b.addr, b.size) <==> Covers(Insert(fl, k, b), x) || InLive(live, x)
      ensures !(Covers(Insert(fl, k, b), x) && InLive(live, x))
    {
      InsertCovers(fl, k, b, x);
    }
  }

  // Two blocks of at least one unit that share no unit lie apart.
  lemma DisjointApart(b: Blk, c: Blk)
    requires b.size >= 1 && c.size >= 1
    requires forall x :: !(Holds(b, x) && Holds(c, x))
    ensures b.addr + b.size <= c.addr || c.addr + c.size <= b.addr
  {
    assert !(Holds(b, b.addr) && Holds(c, b.addr));
    assert !(Holds(b, c.addr) && Holds(c, c.addr));
  }

  // Allocating hands out units that were free, and no others.
  lemma TakePartition(base: int, fl: seq<Blk>, k: nat, n: nat, live: set<Blk>, core: set<int>)
    requires WellFormed(base, fl) && k < |fl| && 1 <= n <= fl[k].size
    requires Partition(fl, live, core) && forall b :: b in live ==> b.size >= 1
    ensures var (r, a) := Take(fl, k, n);
      Partition(r, live + {Blk(a, n)}, core) && NewAddr(live, a)
  {
    var (r, a) := Take(fl, k, n);
    var b := Blk(a, n);
    forall x
      ensures x in core <==> Covers(r, x) || InLive(live + {b}, x)
      ensures !(Covers(r, x) && InLive(live + {b}, x))
    {
      TakeCovers(base, fl, k, n, x);
      InLiveSplit(live, b, x);
    }
    forall c | c in live
      ensures b.addr + b.size <= c.addr || c.addr + c.size <= b.addr
    {
      forall x ensures !(Holds(b, x) && Holds(c, x)) {
        TakeCovers(base, fl, k, n, x);
        if Holds(c, x) { assert InLive(live, x); }
      }
      DisjointApart(b, c);
    }
  }

  lemma FreeAddrNotLive(base: int, fl: seq<Blk>, k: nat, live: set<Blk>, core: set<int>, size: map<int, nat>, b: Blk)
    requires WellFormed(base, fl) && k < |fl| && Partition(fl, live, core) && LiveOk(base, live, size) && b in live
    ensures fl[k].addr != b.addr
  {
    if fl[k].addr == b.addr && k > 0 {
      assert Holds(fl[k], b.addr) && Covers(fl, b.addr);
      assert Holds(b, b.addr) && InLive(live, b.addr);
    }
  }

  ghost predicate HasFit(fl: seq<Blk>, n: nat) {
    exists i :: 0 <= i < |fl| && fl[i].size >= n
  }

  lemma RegionKeepsHeaders(base: int, fl: seq<Blk>, live: set<Blk>, core: set<int>, ptr: map<int, int>, size: map<int,
                           nat>, b: Blk)
    requires WellFormed(base, fl) && Partition(fl, live, core) && Linked(fl, ptr, size)
    requires b.addr > base && b.size >= 1 && Unsupplied(b, core)
    ensures Apart(fl, b) && Linked(fl, ptr, size[b.addr := b.size])
  {
    ApartIfDisjoint(base, fl, b);
    var size' := size[b.addr := b.size];
    assert Holds(b, b.addr);
    forall i | 0 <= i < |fl|
      ensures LinkedAt(fl, ptr, size', i)
    {
      assert LinkedAt(fl, ptr, size, i);
      if i > 0 {
        assert Holds(fl[i], fl[i].addr);
        assert Covers(fl, fl[i].addr);
      }
    }
  }

  // However the new region was merged, the list now holds a block that is large enough.
  lemma InsertHasFit(fl: seq<Blk>, k: nat, b: Blk, n: nat)
    requires k < |fl| && b.size >= n
    ensures HasFit(Insert(fl, k, b), n)
  {
    var (c, rest) := MergeUp(fl, k, b);
    var r := Insert(fl, k, b);
    if fl[k].addr + fl[k].size == b.addr {
      assert r[k].size >= n;
    } else {
      assert r[k + 1] == c;
    }
  }

  lemma GrowKeepsLive(base: int, fl: seq<Blk>, k: nat, live: set<Blk>, core: set<int>, size: map<int, nat>,
                      size': map<int, nat>, b: Blk)
    requires WellFormed(base, fl) && k < |fl| && Partition(fl, live, core) && LiveOk(base, live, size)
    requires b.size >= 1 && Unsupplied(b, core)
    requires forall a :: a in size && a != b.addr && a != fl[k].addr ==> a in size' && size'[a] == size[a]
    ensures LiveOk(base, live, size')
  {
    assert Holds(b, b.addr);
    forall c | c in live
      ensures c.addr in size' && size'[c.addr] == c.size
    {
      FreeAddrNotLive(base, fl, k, live, core, size, c);
      assert Holds(c, c.addr) && InLive(live, c.addr);
    }
  }

  lemma AddrAboveBase(base: int, fl: seq<Blk>, k: nat)
    requires WellFormed(base, fl) && k < |fl|
    ensures fl[k].addr >= base
  {
    assert k > 0 ==> fl[0].addr + fl[0].size < fl[k].addr;
  }

  lemma RegionAdded(base: int, fl: seq<Blk>, k: nat, live: set<Blk>, core: set<int>, size: map<int, nat>,
                    size': map<int, nat>, b: Blk)
    requires WellFormed(base, fl) && k < |fl| && Partition(fl, live, core) && LiveOk(base, live, size)
    requires b.size >= 1 && Unsupplied(b, core)
    requires forall a :: a in size && a != b.addr && a != fl[k].addr ==> a in size' && size'[a] == size[a]
    ensures Partition(Insert(fl, k, b), live, core + Range(b.addr, b.size)) && LiveOk(base, live, size')
    ensures HasFit(Insert(fl, k, b), b.size) && fl[k].addr >= base
  {
    AddrAboveBase(base, fl, k);
    GrowPartition(fl, k, live, core, b);
    GrowKeepsLive(base, fl, k, live, core, size, size', b);
    InsertHasFit(fl, k, b, b.size);
  }

  // The stores of `free` spare the headers of the other live blocks.
  lemma FreeKeepsLive(base: int, fl: seq<Blk>, k: nat, live: set<Blk>, core: set<int>, size: map<int, nat>,
                      size': map<int, nat>, b: Blk)
    requires WellFormed(base, fl) && k < |fl| && Partition(fl, live, core) && LiveOk(base, live, size) && b in live
    requires forall a :: a in size && a != b.addr && a != fl[k].addr ==> a in size' && size'[a] == size[a]
    ensures LiveOk(base, live - {b}, size')
  {
    forall c | c in live - {b}
      ensures c.addr in size' && size'[c.addr] == c.size
    {
      FreeAddrNotLive(base, fl, k, live, core, size, c);
    }
  }

  lemma LiveIsApart(base: int, fl: seq<Blk>, live: set<Blk>, core: set<int>, size: map<int, nat>, b: Blk)
    requires WellFormed(base, fl) && Partition(fl, live, core) && LiveOk(base, live, size) && b in live
    ensures Apart(fl, b)
  {
    forall x | Holds(b, x)
      ensures !Covers(fl, x)
    {
      assert InLive(live, x);
    }
    ApartIfDisjoint(base, fl, b);
  }

  // ---------------------------------------------------------------- the search of malloc

  /** The list position examined in round `m` of a search that starts behind position `f`. */
  function At(f: nat, m: nat, n: nat): (r: int)
    ensures f < n && m < n ==> 0 <= r < n && (r == f + 1 + m || r == f + 1 + m - n)
  {
    if f + 1 + m < n then f + 1 + m else f + 1 + m - n
  }

  ghost predicate TooSmall(fl: seq<Blk>, i: int, n: nat) {
    0 <= i < |fl| && fl[i].size < n
  }

  /** Round `c` of a search for `n` units that starts behind position `f`: all blocks passed were too small. */
  ghost predicate Scan(fl: seq<Blk>, f: nat, c: nat, prevp: int, p: int, n: nat) {
    && f < |fl| && c < |fl|
    && p == fl[At(f, c, |fl|)].addr
    && prevp == fl[if c == 0 then f else At(f, c - 1, |fl|)].addr
    && (forall m: nat :: m < c ==> TooSmall(fl, At(f, m, |fl|), n))
  }

  lemma ScanStep(fl: seq<Blk>, f: nat, c: nat, prevp: int, p: int, n: nat, ptr: map<int, int>, size: map<int, nat>)
    requires Scan(fl, f, c, prevp, p, n) && Linked(fl, ptr, size) && DistinctAddrs(fl)
    requires LinkedAt(fl, ptr, size, At(f, c, |fl|)) && size[p] < n && p != fl[f].addr
    ensures Scan(fl, f, c + 1, p, ptr[p], n)
  {
    var i := At(f, c, |fl|);
    assert c + 1 == |fl| ==> i == f;
    assert TooSmall(fl, i, n);
    assert Next(fl, i) == At(f, c + 1, |fl|);
  }

  lemma ScanEnd(fl: seq<Blk>, f: nat, c: nat, prevp: int, p: int, n: nat)
    requires Scan(fl, f, c, prevp, p, n) && DistinctAddrs(fl)
    requires TooSmall(fl, At(f, c, |fl|), n) && p == fl[f].addr
    ensures !HasFit(fl, n)
  {
    var i := At(f, c, |fl|);
    assert i == f;
    forall j | 0 <= j < |fl|
      ensures fl[j].size < n
    {
      var m := if j > f then j - f - 1 else j + |fl| - f - 1;
      assert At(f, m, |fl|) == j;
      assert TooSmall(fl, At(f, m, |fl|), n);
    }
  }

  lemma ScanFound(base: int, fl: seq<Blk>, f: nat, c: nat, prevp: int, p: int, n: nat)
    requires Scan(fl, f, c, prevp, p, n) && WellFormed(base, fl) && n >= 1
    requires fl[At(f, c, |fl|)].size >= n
    ensures var k := At(f, c, |fl|); k >= 1 && prevp == fl[k - 1].addr
  {
  }

  lemma TakeKeepsLive(base: int, fl: seq<Blk>, k: nat, n: nat, live: set<Blk>, core: set<int>, size: map<int, nat>)
    requires WellFormed(base, fl) && k < |fl| && 1 <= n <= fl[k].size
    requires Partition(fl, live, core) && LiveOk(base, live, size) && fl[k].addr in size
    requires size[fl[k].addr] == fl[k].size
    ensures var (r, a) := Take(fl, k, n);
      var size' := if fl[k].size == n then size else size[fl[k].addr := fl[k].size - n][a := n];
      && Partition(r, live + {Blk(a, n)}, core) && LiveOk(base, live + {Blk(a, n)}, size')
      && NewAddr(live, a)
  {
    TakePartition(base, fl, k, n, live, core);
    AddrAboveBase(base, fl, k);
    assert k > 0;
    assert fl[0].addr + fl[0].size < fl[k].addr;
    forall b | b in live
      ensures b.addr != fl[k].addr
    {
      FreeAddrNotLive(base, fl, k, live, core, size, b);
    }
  }

  class Allocator {
    const base: int
    var freep: int
    var ptr: map<int, int>
    var size: map<int, nat>
    ghost var fl: seq<Blk>
    ghost var live: set<Blk>
    ghost var core: set<int>

    ghost predicate ListOk()
      reads this
    {
      && WellFormed(base, fl) && Linked(fl, ptr, size)
      && exists f :: 0 <= f < |fl| && fl[f].addr == freep
    }

    /** The search loop of `free`: the list element behind which the block at `bp` belongs. */
    method Search(bp: int) returns (p: int, ghost k: nat)
      requires ListOk() && bp > base && bp in size && size[bp] >= 1 && Apart(fl, Blk(bp, size[bp]))
      ensures k < |fl| && p == fl[k].addr && Fits(fl, k, Blk(bp, size[bp]))
    {
      ghost var b := Blk(bp, size[bp]);
      ghost var i: nat :| i < |fl| && fl[i].addr == freep;
      k := Position(base, fl, bp);
      assert Fits(fl, k, b) by {
        assert k + 1 < |fl| ==> fl[k + 1].addr + fl[k + 1].size <= bp || bp + b.size <= fl[k + 1].addr;
      }
      p := freep;
      assert LinkedAt(fl, ptr, size, i);
      while !Stops(p, ptr[p], bp)
        invariant i < |fl| && fl[i].addr == p && LinkedAt(fl, ptr, size, i)
        decreases Ahead(i, k, |fl|)
      {
        StopsAtPosition(base, fl, k, b, i);
        i := Next(fl, i);
        assert LinkedAt(fl, ptr, size, i);
        p := ptr[p];
      }
      StopsAtPosition(base, fl, k, b, i);
    }

    /** The stores of `free` once the place is found. */
    method StoreHeaders(p: int, bp: int)
      requires p in ptr && ptr[p] in ptr && ptr[p] in size && p in size && bp in size && p != bp
      modifies this`ptr, this`size
      ensures (ptr, size) == FreeHeaders(p, Blk(bp, old(size)[bp]), old(ptr), old(size))
    {
      if bp + size[bp] == ptr[p] {
        size, ptr := size[bp := size[bp] + size[ptr[p]]], ptr[bp := ptr[ptr[p]]];
      } else {
        ptr := ptr[bp := ptr[p]];
      }
      if p + size[p] == bp {
        size, ptr := size[p := size[p] + size[bp]], ptr[p := ptr[bp]];
      } else {
        ptr := ptr[p := bp];
      }
    }

    /** `free` proper: links the block at `bp` into the list and merges it with touching neighbours. */
    method Release(bp: int) returns (ghost k: nat)
      requires ListOk() && bp > base && bp in size && size[bp] >= 1 && Apart(fl, Blk(bp, size[bp]))
      modifies this`ptr, this`size, this`freep, this`fl
      ensures ListOk() && k < |old(fl)| && k < |fl| && freep == fl[k].addr == old(fl)[k].addr
      ensures fl == Insert(old(fl), k, old(Blk(bp, size[bp])))
      ensures forall a :: a in old(size) && a != bp && a != freep ==> a in size && size[a] == old(size)[a]
    {
      ghost var b := Blk(bp, size[bp]);
      var p;
      p, k := Search(bp);
      FreeHeadersLinked(base, fl, k, b, ptr, size);
      InsertWellFormed(base, fl, k, b);
      StoreHeaders(p, bp);
      freep := p;
      fl := Insert(fl, k, b);
    }

    ghost predicate Valid()
      reads this
    {
      && base > 0
      && (if freep == 0 then fl == [] && live == {} && core == {} else ListOk())
      && Partition(fl, live, core) && LiveOk(base, live, size)
    }

    /** `free`: `ap` must have come from `Malloc` and not have been freed since. */
    method Free(ap: int)
      requires Valid() && ap - 1 in size && Blk(ap - 1, size[ap - 1]) in live
      modifies this`ptr, this`size, this`freep, this`fl, this`live
      ensures Valid() && live == old(live) - {Blk(ap - 1, old(size)[ap - 1])}
    {
      var bp := ap - 1;
      ghost var b, fl0, live0, size0 := Blk(bp, size[bp]), fl, live, size;
      LiveIsApart(base, fl, live, core, size, b);
      ghost var k := Release(bp);
      AddrAboveBase(base, fl, k);
      FreePartition(fl0, k, live0, core, b);
      FreeKeepsLive(base, fl0, k, live0, core, size0, size, b);
      live := live - {b};
    }

    /** The stores of `morecore`: write a header for the new region, then free it. */
    method LinkRegion(hp: int, n: nat) returns (ghost k: nat)
      requires ListOk() && hp > base && n >= 1 && Apart(fl, Blk(hp, n)) && Linked(fl, ptr, size[hp := n])
      modifies this`ptr, this`size, this`freep, this`fl
      ensures ListOk() && k < |old(fl)| && k < |fl| && freep == old(fl)[k].addr
      ensures fl == Insert(old(fl), k, Blk(hp, n))
      ensures forall a :: a in old(size) && a != hp && a != freep ==> a in size && size[a] == old(size)[a]
    {
      size := size[hp := n];
      k := Release(hp);
    }

    /** Adds a region that sbrk supplied to the heap. */
    method AddRegion(hp: int, n: nat)
      requires Valid() && freep != 0 && n >= 1 && hp > base && Unsupplied(Blk(hp, n), core)
      modifies this`ptr, this`size, this`freep, this`fl, this`core
      ensures Valid() && freep != 0 && core == old(core) + Range(hp, n)
      ensures HasFit(fl, n)
    {
      ghost var b, fl0, size0 := Blk(hp, n), fl, size;
      RegionKeepsHeaders(base, fl, live, core, ptr, size, b);
      ghost var k := LinkRegion(hp, n);
      RegionAdded(base, fl0, k, live, core, size0, size, b);
      core := core + Range(hp, n);
    }

    /** `morecore`: `more` is what sbrk answers. */
    method MoreCore(nu: nat, more: Option<int>) returns (p: int)
      requires Valid() && freep != 0 && nu >= 1
      requires more.Some? ==> more.value > base && Unsupplied(Blk(more.value, Max(nu, 4096)), core)
      modifies this`ptr, this`size, this`freep, this`fl, this`core
      ensures Valid() && freep != 0
      ensures more.None? ==> p == 0 && core == old(core) && fl == old(fl)
      ensures more.Some? ==> p == freep && core == old(core) + Range(more.value, Max(nu, 4096)) && HasFit(fl, nu)
    {
      if more.None? {
        return 0;
      }
      var n := if nu < 4096 then 4096 else nu;
      AddRegion(more.value, n);
      p := freep;
    }

    /** Unlinks or cuts the block at `p`, whose predecessor in the list is at `prevp`. */
    method CutOut(prevp: int, p: int, n: nat, ghost k: nat) returns (q: int)
      requires ListOk() && 1 <= k < |fl| && p == fl[k].addr && prevp == fl[k - 1].addr
      requires 1 <= n <= fl[k].size && LinkedAt(fl, ptr, size, k)
      modifies this`ptr, this`size, this`freep, this`fl
      ensures ListOk() && (fl, q) == Take(old(fl), k, n) && q + n == p + old(fl)[k].size && freep == prevp
      ensures size == if old(fl)[k].size == n then old(size) else old(size)[p := old(fl)[k].size - n][q := n]
    {
      ghost var (fl', a) := Take(fl, k, n);
      TakeWellFormed(base, fl, k, n);
      if size[p] == n {
        OrderedDistinct(fl);
        UnlinkLinked(fl, k, ptr, size);
        ptr := ptr[prevp := ptr[p]];
        q := p;
      } else {
        CutLinked(base, fl, k, n, ptr, size);
        size := size[p := size[p] - n];
        q := p + size[p];
        size := size[q := n];
      }
      freep := prevp;
      fl := fl';
      assert fl[k - 1].addr == freep;
    }

    /** The part of `malloc` that hands out `n` units of the block at `p`. */
    method TakeFrom(prevp: int, p: int, n: nat, ghost k: nat) returns (r: int)
      requires Valid() && freep != 0 && 1 <= k < |fl| && p == fl[k].addr && prevp == fl[k - 1].addr
      requires 1 <= n <= fl[k].size && LinkedAt(fl, ptr, size, k)
      modifies this`ptr, this`size, this`freep, this`fl, this`live
      ensures Valid() && freep != 0
      ensures live == old(live) + {Blk(r - 1, n)} && NewAddr(old(live), r - 1)
    {
      TakeKeepsLive(base, fl, k, n, live, core, size);
      AddrAboveBase(base, fl, k - 1);
      var q := CutOut(prevp, p, n, k);
      live := live + {Blk(q, n)};
      r := q + 1;
    }

    constructor (base: int)
      requires base > 0
      ensures Valid() && live == {} && core == {}
    {
      this.base := base;
      freep, ptr, size := 0, map[], map[];
      fl, live, core := [], {}, {};
    }

    /** The first call sets up the circle that consists of `base` alone. */
    method Start()
      requires Valid()
      modifies this`ptr, this`size, this`freep, this`fl
      ensures Valid() && freep != 0
      ensures old(freep) != 0 ==> fl == old(fl)
    {
      if freep == 0 {
        ptr, size, freep := ptr[base := base], size[base := 0], base;
        fl := [Blk(base, 0)];
        assert LinkedAt(fl, ptr, size, 0);
        assert fl[0].addr == freep;
        assert forall x :: !Covers(fl, x);
      }
    }

    ghost function FreeIndex(): (f: nat)
      reads this
      requires ListOk()
      ensures f < |fl| && fl[f].addr == freep
    {
      var f: nat :| f < |fl| && fl[f].addr == freep;
      f
    }

    /** One turn of the search of `malloc` round the circle, from behind `freep` to `freep` itself: ends at the
        first block that is large enough, or at `freep` when there is none. */
    method FindNext(n: nat) returns (prevp: int, p: int, ghost k: nat, ghost f: nat, ghost c: nat)
      requires ListOk() && n >= 1
      ensures k < |fl| && p == fl[k].addr && LinkedAt(fl, ptr, size, k)
      ensures Scan(fl, f, c, prevp, p, n) && freep == fl[f].addr && k == At(f, c, |fl|)
      ensures if HasFit(fl, n) then fl[k].size >= n && k >= 1 && prevp == fl[k - 1].addr else fl[k].size < n
    {
      prevp := freep;
      f, c := FreeIndex(), 0;
      assert LinkedAt(fl, ptr, size, f);
      p := ptr[prevp];
      k := At(f, 0, |fl|);
      assert LinkedAt(fl, ptr, size, k);
      OrderedDistinct(fl);
      while size[p] < n && p != freep
        invariant Scan(fl, f, c, prevp, p, n) && freep == fl[f].addr
        invariant k == At(f, c, |fl|) && LinkedAt(fl, ptr, size, k)
        decreases |fl| - c
      {
        ScanStep(fl, f, c, prevp, p, n, ptr, size);
        c := c + 1;
        k := At(f, c, |fl|);
        prevp, p := p, ptr[p];
        assert LinkedAt(fl, ptr, size, k);
      }
      if size[p] >= n {
        ScanFound(base, fl, f, c, prevp, p, n);
      } else {
        ScanEnd(fl, f, c, prevp, p, n);
      }
    }

    method FindFit(n: nat) returns (prevp: int, p: int, ghost k: nat)
      requires ListOk() && n >= 1
      ensures k < |fl| && p == fl[k].addr && LinkedAt(fl, ptr, size, k)
      ensures if HasFit(fl, n) then fl[k].size >= n && k >= 1 && prevp == fl[k - 1].addr else fl[k].size < n
    {
      ghost var f, c;
      prevp, p, k, f, c := FindNext(n);
    }

    /** `malloc`.  `more` is what sbrk answers if it is asked; it is asked at most once, and only when no
        free block is large enough. */
    method Malloc(nbytes: nat, more: Option<int>) returns (r: Option<int>)
      requires Valid()
      requires more.Some? ==> more.value > base && Unsupplied(Blk(more.value, Max(Units(nbytes), 4096)), core)
      modifies this
      ensures Valid()
      ensures r.Some? ==> live == old(live) + {Blk(r.value - 1, Units(nbytes))}
      ensures r.Some? ==> NewAddr(old(live), r.value - 1)
      ensures r.None? ==> more.None? && live == old(live) && !HasFit(fl, Units(nbytes))
      ensures core != old(core) ==>
        && more.Some? && r.Some? && !HasFit(old(fl), Units(nbytes))
        && core == old(core) + Range(more.value, Max(Units(nbytes), 4096))
    {
      Start();
      var n := Units(nbytes);
      ghost var grown := false;
      while true
        invariant Valid() && freep != 0 && live == old(live)
        invariant if grown then more.Some? && core == old(core) + Range(more.value, Max(n, 4096)) && HasFit(fl, n)
                  else core == old(core) && (HasFit(old(fl), n) ==> HasFit(fl, n))
        invariant grown ==> !HasFit(old(fl), n)
        decreases !grown
      {
        var prevp, p;
        ghost var k;
        prevp, p, k := FindFit(n);
        if size[p] >= n {
          var a := TakeFrom(prevp, p, n, k);
          return Some(a);
        }
        p := MoreCore(n, more);
        if p == 0 {
          return None;
        }
        grown := true;
      }
    }
  }
}
